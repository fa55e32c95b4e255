/**
  Every move only permutes facelets: the number of facelets of each
  colour is the same before and after any face, wide or slice turn. Each
  ribbon write trades the old ribbon's colours for the new one's; round a
  cycle of four writes the trades cancel, and a rotation keeps its face's
  colours.
*/
module Colors {
  import opened Grids
  import opened GridCounts
  import opened Cubes
  import opened FaceMoves
  import opened WideMoves
  import opened WideCells
  import opened WideClosedForms
  import opened FaceLaws
  import opened SliceMoves

  /** A cube has its own colours. */
  lemma SameColorsRefl(c: Cube)
    ensures SameColors(c, c)
  {
  }

  /** Keeping the colours composes. */
  lemma SameColorsTrans(a: Cube, b: Cube, c: Cube)
    requires SameColors(a, b) && SameColors(b, c)
    ensures SameColors(a, c)
  {
  }

  /** One loop step of Uw keeps the colours. */
  lemma UwLayerColors(c: Cube, j: nat)
    requires Valid(c) && j < c.n
    ensures SameColors(c, UwLayer(c, j))
  {
    hide Count, Rev, Col, SetCol;
    forall x: Color
      ensures ColorCount(UwLayer(c, j), x) == ColorCount(c, x)
    {
      SetRowCount(c.F, j, Row(c.R, j), x);
      SetRowCount(c.R, j, Row(c.B, j), x);
      SetRowCount(c.B, j, Row(c.L, j), x);
      SetRowCount(c.L, j, Row(c.F, j), x);
    }
  }

  /** The first `k` loop steps of Uw keep the colours. */
  lemma {:induction false} UwLayersColors(c: Cube, k: nat)
    requires Valid(c) && k <= c.n
    ensures SameColors(c, UwLayers(c, k))
  {
    hide *;
    UwLayersUnfold(c, k);
    if k > 0 {
      UwLayersColors(c, k - 1);
      UwLayerColors(UwLayers(c, k - 1), k - 1);
      SameColorsTrans(c, UwLayers(c, k - 1), UwLayers(c, k));
    } else {
      SameColorsRefl(c);
    }
  }

  /** One loop step of Uw' keeps the colours. */
  lemma UwPrimeLayerColors(c: Cube, j: nat)
    requires Valid(c) && j < c.n
    ensures SameColors(c, UwPrimeLayer(c, j))
  {
    hide Count, Rev, Col, SetCol;
    forall x: Color
      ensures ColorCount(UwPrimeLayer(c, j), x) == ColorCount(c, x)
    {
      SetRowCount(c.F, j, Row(c.L, j), x);
      SetRowCount(c.L, j, Row(c.B, j), x);
      SetRowCount(c.B, j, Row(c.R, j), x);
      SetRowCount(c.R, j, Row(c.F, j), x);
    }
  }

  /** The first `k` loop steps of Uw' keep the colours. */
  lemma {:induction false} UwPrimeLayersColors(c: Cube, k: nat)
    requires Valid(c) && k <= c.n
    ensures SameColors(c, UwPrimeLayers(c, k))
  {
    hide *;
    UwPrimeLayersUnfold(c, k);
    if k > 0 {
      UwPrimeLayersColors(c, k - 1);
      UwPrimeLayerColors(UwPrimeLayers(c, k - 1), k - 1);
      SameColorsTrans(c, UwPrimeLayers(c, k - 1), UwPrimeLayers(c, k));
    } else {
      SameColorsRefl(c);
    }
  }

  /** Uw and Uw' keep the colours, for every layer count. */
  lemma MoveUwColors(c: Cube, layers: int)
    requires Valid(c) && layers <= c.n
    ensures SameColors(c, MoveUw(c, layers))
    ensures SameColors(c, MoveUwPrime(c, layers))
  {
    hide Count, Rev, Col, SetCol, RotateCW, RotateCCW, UwLayer, UwPrimeLayer, UwLayers, UwPrimeLayers;
    MoveUwIs(c, layers);
    MoveUwPrimeIs(c, layers);
    if layers > 0 {
      var c1 := c.(U := RotateCW(c.U));
      var t := UwPrimeLayers(c, layers);
      forall x: Color
        ensures ColorCount(c1, x) == ColorCount(c, x)
        ensures ColorCount(MoveUwPrime(c, layers), x) == ColorCount(t, x)
      {
        RotateCWCount(c.U, x);
        RotateCCWCount(t.U, x);
      }
      UwLayersColors(c1, layers);
      UwPrimeLayersColors(c, layers);
    }
  }

  /** One loop step of Dw keeps the colours. */
  lemma DwLayerColors(c: Cube, j: nat)
    requires Valid(c) && j < c.n
    ensures SameColors(c, DwLayer(c, j))
  {
    hide Count, Rev, Col, SetCol;
    forall x: Color
      ensures ColorCount(DwLayer(c, j), x) == ColorCount(c, x)
    {
      SetRowCount(c.F, c.n - 1 - j, Row(c.L, (c.n - 1 - j)), x);
      SetRowCount(c.L, c.n - 1 - j, Row(c.B, (c.n - 1 - j)), x);
      SetRowCount(c.B, c.n - 1 - j, Row(c.R, (c.n - 1 - j)), x);
      SetRowCount(c.R, c.n - 1 - j, Row(c.F, (c.n - 1 - j)), x);
    }
  }

  /** The first `k` loop steps of Dw keep the colours. */
  lemma {:induction false} DwLayersColors(c: Cube, k: nat)
    requires Valid(c) && k <= c.n
    ensures SameColors(c, DwLayers(c, k))
  {
    hide *;
    DwLayersUnfold(c, k);
    if k > 0 {
      DwLayersColors(c, k - 1);
      DwLayerColors(DwLayers(c, k - 1), k - 1);
      SameColorsTrans(c, DwLayers(c, k - 1), DwLayers(c, k));
    } else {
      SameColorsRefl(c);
    }
  }

  /** One loop step of Dw' keeps the colours. */
  lemma DwPrimeLayerColors(c: Cube, j: nat)
    requires Valid(c) && j < c.n
    ensures SameColors(c, DwPrimeLayer(c, j))
  {
    hide Count, Rev, Col, SetCol;
    forall x: Color
      ensures ColorCount(DwPrimeLayer(c, j), x) == ColorCount(c, x)
    {
      SetRowCount(c.F, c.n - 1 - j, Row(c.R, (c.n - 1 - j)), x);
      SetRowCount(c.R, c.n - 1 - j, Row(c.B, (c.n - 1 - j)), x);
      SetRowCount(c.B, c.n - 1 - j, Row(c.L, (c.n - 1 - j)), x);
      SetRowCount(c.L, c.n - 1 - j, Row(c.F, (c.n - 1 - j)), x);
    }
  }

  /** The first `k` loop steps of Dw' keep the colours. */
  lemma {:induction false} DwPrimeLayersColors(c: Cube, k: nat)
    requires Valid(c) && k <= c.n
    ensures SameColors(c, DwPrimeLayers(c, k))
  {
    hide *;
    DwPrimeLayersUnfold(c, k);
    if k > 0 {
      DwPrimeLayersColors(c, k - 1);
      DwPrimeLayerColors(DwPrimeLayers(c, k - 1), k - 1);
      SameColorsTrans(c, DwPrimeLayers(c, k - 1), DwPrimeLayers(c, k));
    } else {
      SameColorsRefl(c);
    }
  }

  /** Dw and Dw' keep the colours, for every layer count. */
  lemma MoveDwColors(c: Cube, layers: int)
    requires Valid(c) && layers <= c.n
    ensures SameColors(c, MoveDw(c, layers))
    ensures SameColors(c, MoveDwPrime(c, layers))
  {
    hide Count, Rev, Col, SetCol, RotateCW, RotateCCW, DwLayer, DwPrimeLayer, DwLayers, DwPrimeLayers;
    MoveDwIs(c, layers);
    MoveDwPrimeIs(c, layers);
    if layers > 0 {
      var c1 := c.(D := RotateCW(c.D));
      var t := DwPrimeLayers(c, layers);
      forall x: Color
        ensures ColorCount(c1, x) == ColorCount(c, x)
        ensures ColorCount(MoveDwPrime(c, layers), x) == ColorCount(t, x)
      {
        RotateCWCount(c.D, x);
        RotateCCWCount(t.D, x);
      }
      DwLayersColors(c1, layers);
      DwPrimeLayersColors(c, layers);
    }
  }

  /** One loop step of Lw keeps the colours. */
  lemma LwLayerColors(c: Cube, j: nat)
    requires Valid(c) && j < c.n
    ensures SameColors(c, LwLayer(c, j))
  {
    hide Count, Rev, Col, SetCol;
    forall x: Color
      ensures ColorCount(LwLayer(c, j), x) == ColorCount(c, x)
    {
      SetColCount(c.U, j, Rev(Col(c.B, c.n - 1 - j)), x);
      RevMultiset(Col(c.B, c.n - 1 - j));
      SetColCount(c.B, c.n - 1 - j, Rev(Col(c.D, j)), x);
      RevMultiset(Col(c.D, j));
      SetColCount(c.D, j, Col(c.F, j), x);
      SetColCount(c.F, j, Col(c.U, j), x);
    }
  }

  /** The first `k` loop steps of Lw keep the colours. */
  lemma {:induction false} LwLayersColors(c: Cube, k: nat)
    requires Valid(c) && k <= c.n
    ensures SameColors(c, LwLayers(c, k))
  {
    hide *;
    LwLayersUnfold(c, k);
    if k > 0 {
      LwLayersColors(c, k - 1);
      LwLayerColors(LwLayers(c, k - 1), k - 1);
      SameColorsTrans(c, LwLayers(c, k - 1), LwLayers(c, k));
    } else {
      SameColorsRefl(c);
    }
  }

  /** One loop step of Lw' keeps the colours. */
  lemma LwPrimeLayerColors(c: Cube, j: nat)
    requires Valid(c) && j < c.n
    ensures SameColors(c, LwPrimeLayer(c, j))
  {
    hide Count, Rev, Col, SetCol;
    forall x: Color
      ensures ColorCount(LwPrimeLayer(c, j), x) == ColorCount(c, x)
    {
      SetColCount(c.U, j, Col(c.F, j), x);
      SetColCount(c.F, j, Col(c.D, j), x);
      SetColCount(c.D, j, Rev(Col(c.B, c.n - 1 - j)), x);
      RevMultiset(Col(c.B, c.n - 1 - j));
      SetColCount(c.B, c.n - 1 - j, Rev(Col(c.U, j)), x);
      RevMultiset(Col(c.U, j));
    }
  }

  /** The first `k` loop steps of Lw' keep the colours. */
  lemma {:induction false} LwPrimeLayersColors(c: Cube, k: nat)
    requires Valid(c) && k <= c.n
    ensures SameColors(c, LwPrimeLayers(c, k))
  {
    hide *;
    LwPrimeLayersUnfold(c, k);
    if k > 0 {
      LwPrimeLayersColors(c, k - 1);
      LwPrimeLayerColors(LwPrimeLayers(c, k - 1), k - 1);
      SameColorsTrans(c, LwPrimeLayers(c, k - 1), LwPrimeLayers(c, k));
    } else {
      SameColorsRefl(c);
    }
  }

  /** Lw and Lw' keep the colours, for every layer count. */
  lemma MoveLwColors(c: Cube, layers: int)
    requires Valid(c) && layers <= c.n
    ensures SameColors(c, MoveLw(c, layers))
    ensures SameColors(c, MoveLwPrime(c, layers))
  {
    hide Count, Rev, Col, SetCol, RotateCW, RotateCCW, LwLayer, LwPrimeLayer, LwLayers, LwPrimeLayers;
    MoveLwIs(c, layers);
    MoveLwPrimeIs(c, layers);
    if layers > 0 {
      var c1 := c.(L := RotateCW(c.L));
      var t := LwPrimeLayers(c, layers);
      forall x: Color
        ensures ColorCount(c1, x) == ColorCount(c, x)
        ensures ColorCount(MoveLwPrime(c, layers), x) == ColorCount(t, x)
      {
        RotateCWCount(c.L, x);
        RotateCCWCount(t.L, x);
      }
      LwLayersColors(c1, layers);
      LwPrimeLayersColors(c, layers);
    }
  }

  /** One loop step of Rw keeps the colours. */
  lemma RwLayerColors(c: Cube, j: nat)
    requires Valid(c) && j < c.n
    ensures SameColors(c, RwLayer(c, j))
  {
    hide Count, Rev, Col, SetCol;
    forall x: Color
      ensures ColorCount(RwLayer(c, j), x) == ColorCount(c, x)
    {
      SetColCount(c.U, c.n - 1 - j, Rev(Col(c.B, j)), x);
      RevMultiset(Col(c.B, j));
      SetColCount(c.B, j, Rev(Col(c.D, (c.n - 1 - j))), x);
      RevMultiset(Col(c.D, (c.n - 1 - j)));
      SetColCount(c.D, c.n - 1 - j, Col(c.F, (c.n - 1 - j)), x);
      SetColCount(c.F, c.n - 1 - j, Col(c.U, (c.n - 1 - j)), x);
    }
  }

  /** The first `k` loop steps of Rw keep the colours. */
  lemma {:induction false} RwLayersColors(c: Cube, k: nat)
    requires Valid(c) && k <= c.n
    ensures SameColors(c, RwLayers(c, k))
  {
    hide *;
    RwLayersUnfold(c, k);
    if k > 0 {
      RwLayersColors(c, k - 1);
      RwLayerColors(RwLayers(c, k - 1), k - 1);
      SameColorsTrans(c, RwLayers(c, k - 1), RwLayers(c, k));
    } else {
      SameColorsRefl(c);
    }
  }

  /** One loop step of Rw' keeps the colours. */
  lemma RwPrimeLayerColors(c: Cube, j: nat)
    requires Valid(c) && j < c.n
    ensures SameColors(c, RwPrimeLayer(c, j))
  {
    hide Count, Rev, Col, SetCol;
    forall x: Color
      ensures ColorCount(RwPrimeLayer(c, j), x) == ColorCount(c, x)
    {
      SetColCount(c.U, c.n - 1 - j, Col(c.F, (c.n - 1 - j)), x);
      SetColCount(c.F, c.n - 1 - j, Col(c.D, (c.n - 1 - j)), x);
      SetColCount(c.D, c.n - 1 - j, Rev(Col(c.B, j)), x);
      RevMultiset(Col(c.B, j));
      SetColCount(c.B, j, Rev(Col(c.U, (c.n - 1 - j))), x);
      RevMultiset(Col(c.U, (c.n - 1 - j)));
    }
  }

  /** The first `k` loop steps of Rw' keep the colours. */
  lemma {:induction false} RwPrimeLayersColors(c: Cube, k: nat)
    requires Valid(c) && k <= c.n
    ensures SameColors(c, RwPrimeLayers(c, k))
  {
    hide *;
    RwPrimeLayersUnfold(c, k);
    if k > 0 {
      RwPrimeLayersColors(c, k - 1);
      RwPrimeLayerColors(RwPrimeLayers(c, k - 1), k - 1);
      SameColorsTrans(c, RwPrimeLayers(c, k - 1), RwPrimeLayers(c, k));
    } else {
      SameColorsRefl(c);
    }
  }

  /** Rw and Rw' keep the colours, for every layer count. */
  lemma MoveRwColors(c: Cube, layers: int)
    requires Valid(c) && layers <= c.n
    ensures SameColors(c, MoveRw(c, layers))
    ensures SameColors(c, MoveRwPrime(c, layers))
  {
    hide Count, Rev, Col, SetCol, RotateCW, RotateCCW, RwLayer, RwPrimeLayer, RwLayers, RwPrimeLayers;
    MoveRwIs(c, layers);
    MoveRwPrimeIs(c, layers);
    if layers > 0 {
      var c1 := c.(R := RotateCW(c.R));
      var t := RwPrimeLayers(c, layers);
      forall x: Color
        ensures ColorCount(c1, x) == ColorCount(c, x)
        ensures ColorCount(MoveRwPrime(c, layers), x) == ColorCount(t, x)
      {
        RotateCWCount(c.R, x);
        RotateCCWCount(t.R, x);
      }
      RwLayersColors(c1, layers);
      RwPrimeLayersColors(c, layers);
    }
  }

  /** One loop step of Fw keeps the colours. */
  lemma FwLayerColors(c: Cube, start: nat, j: nat)
    requires Valid(c) && start + j < c.n
    ensures SameColors(c, FwLayer(c, start, j))
  {
    hide Count, Rev, Col, SetCol;
    forall x: Color
      ensures ColorCount(FwLayer(c, start, j), x) == ColorCount(c, x)
    {
      SetRowCount(c.U, start + j, Rev(Col(c.L, c.n - 1 - j)), x);
      RevMultiset(Col(c.L, c.n - 1 - j));
      SetColCount(c.L, c.n - 1 - j, Row(c.D, j), x);
      SetRowCount(c.D, j, Rev(Col(c.R, j)), x);
      RevMultiset(Col(c.R, j));
      SetColCount(c.R, j, Row(c.U, start + j), x);
    }
  }

  /** The first `k` loop steps of Fw keep the colours. */
  lemma {:induction false} FwLayersColors(c: Cube, start: nat, k: nat)
    requires Valid(c) && start + k <= c.n
    ensures SameColors(c, FwLayers(c, start, k))
  {
    hide *;
    FwLayersUnfold(c, start, k);
    if k > 0 {
      FwLayersColors(c, start, k - 1);
      FwLayerColors(FwLayers(c, start, k - 1), start, k - 1);
      SameColorsTrans(c, FwLayers(c, start, k - 1), FwLayers(c, start, k));
    } else {
      SameColorsRefl(c);
    }
  }

  /** One loop step of Fw' keeps the colours. */
  lemma FwPrimeLayerColors(c: Cube, start: nat, j: nat)
    requires Valid(c) && start + j < c.n
    ensures SameColors(c, FwPrimeLayer(c, start, j))
  {
    hide Count, Rev, Col, SetCol;
    forall x: Color
      ensures ColorCount(FwPrimeLayer(c, start, j), x) == ColorCount(c, x)
    {
      SetRowCount(c.U, start + j, Col(c.R, j), x);
      SetColCount(c.R, j, Rev(Row(c.D, j)), x);
      RevMultiset(Row(c.D, j));
      SetRowCount(c.D, j, Col(c.L, c.n - 1 - j), x);
      SetColCount(c.L, c.n - 1 - j, Rev(Row(c.U, start + j)), x);
      RevMultiset(Row(c.U, start + j));
    }
  }

  /** The first `k` loop steps of Fw' keep the colours. */
  lemma {:induction false} FwPrimeLayersColors(c: Cube, start: nat, k: nat)
    requires Valid(c) && start + k <= c.n
    ensures SameColors(c, FwPrimeLayers(c, start, k))
  {
    hide *;
    FwPrimeLayersUnfold(c, start, k);
    if k > 0 {
      FwPrimeLayersColors(c, start, k - 1);
      FwPrimeLayerColors(FwPrimeLayers(c, start, k - 1), start, k - 1);
      SameColorsTrans(c, FwPrimeLayers(c, start, k - 1), FwPrimeLayers(c, start, k));
    } else {
      SameColorsRefl(c);
    }
  }

  /** Fw and Fw' keep the colours, for every layer count. */
  lemma MoveFwColors(c: Cube, layers: int)
    requires Valid(c) && layers <= c.n
    ensures SameColors(c, MoveFw(c, layers))
    ensures SameColors(c, MoveFwPrime(c, layers))
  {
    hide Count, Rev, Col, SetCol, RotateCW, RotateCCW, FwLayer, FwPrimeLayer, FwLayers, FwPrimeLayers;
    MoveFwIs(c, layers);
    MoveFwPrimeIs(c, layers);
    if layers > 0 {
      var c1 := c.(F := RotateCW(c.F));
      var t := FwPrimeLayers(c, c.n - layers, layers);
      forall x: Color
        ensures ColorCount(c1, x) == ColorCount(c, x)
        ensures ColorCount(MoveFwPrime(c, layers), x) == ColorCount(t, x)
      {
        RotateCWCount(c.F, x);
        RotateCCWCount(t.F, x);
      }
      FwLayersColors(c1, c.n - layers, layers);
      FwPrimeLayersColors(c, c.n - layers, layers);
    }
  }

  /** One loop step of Bw keeps the colours. */
  lemma BwLayerColors(c: Cube, j: nat)
    requires Valid(c) && j < c.n
    ensures SameColors(c, BwLayer(c, j))
  {
    hide Count, Rev, Col, SetCol;
    forall x: Color
      ensures ColorCount(BwLayer(c, j), x) == ColorCount(c, x)
    {
      SetRowCount(c.U, j, Rev(Col(c.R, c.n - 1 - j)), x);
      RevMultiset(Col(c.R, c.n - 1 - j));
      SetColCount(c.R, c.n - 1 - j, Row(c.D, (c.n - 1 - j)), x);
      SetRowCount(c.D, c.n - 1 - j, Rev(Col(c.L, j)), x);
      RevMultiset(Col(c.L, j));
      SetColCount(c.L, j, Row(c.U, j), x);
    }
  }

  /** The first `k` loop steps of Bw keep the colours. */
  lemma {:induction false} BwLayersColors(c: Cube, k: nat)
    requires Valid(c) && k <= c.n
    ensures SameColors(c, BwLayers(c, k))
  {
    hide *;
    BwLayersUnfold(c, k);
    if k > 0 {
      BwLayersColors(c, k - 1);
      BwLayerColors(BwLayers(c, k - 1), k - 1);
      SameColorsTrans(c, BwLayers(c, k - 1), BwLayers(c, k));
    } else {
      SameColorsRefl(c);
    }
  }

  /** One loop step of Bw' keeps the colours. */
  lemma BwPrimeLayerColors(c: Cube, j: nat)
    requires Valid(c) && j < c.n
    ensures SameColors(c, BwPrimeLayer(c, j))
  {
    hide Count, Rev, Col, SetCol;
    forall x: Color
      ensures ColorCount(BwPrimeLayer(c, j), x) == ColorCount(c, x)
    {
      SetRowCount(c.U, j, Col(c.L, j), x);
      SetColCount(c.L, j, Rev(Row(c.D, (c.n - 1 - j))), x);
      RevMultiset(Row(c.D, (c.n - 1 - j)));
      SetRowCount(c.D, c.n - 1 - j, Col(c.R, c.n - 1 - j), x);
      SetColCount(c.R, c.n - 1 - j, Rev(Row(c.U, j)), x);
      RevMultiset(Row(c.U, j));
    }
  }

  /** The first `k` loop steps of Bw' keep the colours. */
  lemma {:induction false} BwPrimeLayersColors(c: Cube, k: nat)
    requires Valid(c) && k <= c.n
    ensures SameColors(c, BwPrimeLayers(c, k))
  {
    hide *;
    BwPrimeLayersUnfold(c, k);
    if k > 0 {
      BwPrimeLayersColors(c, k - 1);
      BwPrimeLayerColors(BwPrimeLayers(c, k - 1), k - 1);
      SameColorsTrans(c, BwPrimeLayers(c, k - 1), BwPrimeLayers(c, k));
    } else {
      SameColorsRefl(c);
    }
  }

  /** Bw and Bw' keep the colours, for every layer count. */
  lemma MoveBwColors(c: Cube, layers: int)
    requires Valid(c) && layers <= c.n
    ensures SameColors(c, MoveBw(c, layers))
    ensures SameColors(c, MoveBwPrime(c, layers))
  {
    hide Count, Rev, Col, SetCol, RotateCW, RotateCCW, BwLayer, BwPrimeLayer, BwLayers, BwPrimeLayers;
    MoveBwIs(c, layers);
    MoveBwPrimeIs(c, layers);
    if layers > 0 {
      var c1 := c.(B := RotateCW(c.B));
      var t := BwPrimeLayers(c, layers);
      forall x: Color
        ensures ColorCount(c1, x) == ColorCount(c, x)
        ensures ColorCount(MoveBwPrime(c, layers), x) == ColorCount(t, x)
      {
        RotateCWCount(c.B, x);
        RotateCCWCount(t.B, x);
      }
      BwLayersColors(c1, layers);
      BwPrimeLayersColors(c, layers);
    }
  }

  /** U, U' and U2 keep the colours. */
  lemma MoveUColors(c: Cube)
    requires Valid(c)
    ensures SameColors(c, MoveU(c))
    ensures SameColors(c, MoveUPrime(c))
    ensures SameColors(c, MoveU2(c))
  {
    MoveUIsWide(c);
    MoveUIsWide(MoveU(c));
    MoveUwColors(c, 1);
    MoveUwColors(MoveU(c), 1);
    SameColorsTrans(c, MoveU(c), MoveU2(c));
  }

  /** D, D' and D2 keep the colours. */
  lemma MoveDColors(c: Cube)
    requires Valid(c)
    ensures SameColors(c, MoveD(c))
    ensures SameColors(c, MoveDPrime(c))
    ensures SameColors(c, MoveD2(c))
  {
    MoveDIsWide(c);
    MoveDIsWide(MoveD(c));
    MoveDwColors(c, 1);
    MoveDwColors(MoveD(c), 1);
    SameColorsTrans(c, MoveD(c), MoveD2(c));
  }

  /** L, L' and L2 keep the colours. */
  lemma MoveLColors(c: Cube)
    requires Valid(c)
    ensures SameColors(c, MoveL(c))
    ensures SameColors(c, MoveLPrime(c))
    ensures SameColors(c, MoveL2(c))
  {
    MoveLIsWide(c);
    MoveLIsWide(MoveL(c));
    MoveLwColors(c, 1);
    MoveLwColors(MoveL(c), 1);
    SameColorsTrans(c, MoveL(c), MoveL2(c));
  }

  /** R, R' and R2 keep the colours. */
  lemma MoveRColors(c: Cube)
    requires Valid(c)
    ensures SameColors(c, MoveR(c))
    ensures SameColors(c, MoveRPrime(c))
    ensures SameColors(c, MoveR2(c))
  {
    MoveRIsWide(c);
    MoveRIsWide(MoveR(c));
    MoveRwColors(c, 1);
    MoveRwColors(MoveR(c), 1);
    SameColorsTrans(c, MoveR(c), MoveR2(c));
  }

  /** F, F' and F2 keep the colours. */
  lemma MoveFColors(c: Cube)
    requires Valid(c)
    ensures SameColors(c, MoveF(c))
    ensures SameColors(c, MoveFPrime(c))
    ensures SameColors(c, MoveF2(c))
  {
    MoveFIsWide(c);
    MoveFIsWide(MoveF(c));
    MoveFwColors(c, 1);
    MoveFwColors(MoveF(c), 1);
    SameColorsTrans(c, MoveF(c), MoveF2(c));
  }

  /** B, B' and B2 keep the colours. */
  lemma MoveBColors(c: Cube)
    requires Valid(c)
    ensures SameColors(c, MoveB(c))
    ensures SameColors(c, MoveBPrime(c))
    ensures SameColors(c, MoveB2(c))
  {
    MoveBIsWide(c);
    MoveBIsWide(MoveB(c));
    MoveBwColors(c, 1);
    MoveBwColors(MoveB(c), 1);
    SameColorsTrans(c, MoveB(c), MoveB2(c));
  }

  /** M keeps the colours. */
  lemma MoveMColors(c: Cube)
    requires Valid(c)
    ensures SameColors(c, MoveM(c))
  {
    hide Count, Rev, Col, SetCol;
    forall x: Color
      ensures ColorCount(MoveM(c), x) == ColorCount(c, x)
    {
      SetColCount(c.U, Mid(c.n), Col(c.F, Mid(c.n)), x);
      SetColCount(c.F, Mid(c.n), Col(c.D, Mid(c.n)), x);
      SetColCount(c.D, Mid(c.n), Rev(Col(c.B, Mid(c.n))), x);
      RevMultiset(Col(c.B, Mid(c.n)));
      SetColCount(c.B, Mid(c.n), Rev(Col(c.U, Mid(c.n))), x);
      RevMultiset(Col(c.U, Mid(c.n)));
    }
  }

  /** M' keeps the colours. */
  lemma MoveMPrimeColors(c: Cube)
    requires Valid(c)
    ensures SameColors(c, MoveMPrime(c))
  {
    hide Count, Rev, Col, SetCol;
    forall x: Color
      ensures ColorCount(MoveMPrime(c), x) == ColorCount(c, x)
    {
      SetColCount(c.U, Mid(c.n), Rev(Col(c.B, Mid(c.n))), x);
      RevMultiset(Col(c.B, Mid(c.n)));
      SetColCount(c.B, Mid(c.n), Rev(Col(c.D, Mid(c.n))), x);
      RevMultiset(Col(c.D, Mid(c.n)));
      SetColCount(c.D, Mid(c.n), Col(c.F, Mid(c.n)), x);
      SetColCount(c.F, Mid(c.n), Col(c.U, Mid(c.n)), x);
    }
  }

  /** E keeps the colours. */
  lemma MoveEColors(c: Cube)
    requires Valid(c)
    ensures SameColors(c, MoveE(c))
  {
    hide Count, Rev, Col, SetCol;
    forall x: Color
      ensures ColorCount(MoveE(c), x) == ColorCount(c, x)
    {
      SetRowCount(c.F, Mid(c.n), Row(c.R, Mid(c.n)), x);
      SetRowCount(c.R, Mid(c.n), Row(c.B, Mid(c.n)), x);
      SetRowCount(c.B, Mid(c.n), Row(c.L, Mid(c.n)), x);
      SetRowCount(c.L, Mid(c.n), Row(c.F, Mid(c.n)), x);
    }
  }

  /** E' keeps the colours. */
  lemma MoveEPrimeColors(c: Cube)
    requires Valid(c)
    ensures SameColors(c, MoveEPrime(c))
  {
    hide Count, Rev, Col, SetCol;
    forall x: Color
      ensures ColorCount(MoveEPrime(c), x) == ColorCount(c, x)
    {
      SetRowCount(c.F, Mid(c.n), Row(c.L, Mid(c.n)), x);
      SetRowCount(c.L, Mid(c.n), Row(c.B, Mid(c.n)), x);
      SetRowCount(c.B, Mid(c.n), Row(c.R, Mid(c.n)), x);
      SetRowCount(c.R, Mid(c.n), Row(c.F, Mid(c.n)), x);
    }
  }

  /** S keeps the colours. */
  lemma MoveSColors(c: Cube)
    requires Valid(c)
    ensures SameColors(c, MoveS(c))
  {
    hide Count, Rev, Col, SetCol;
    forall x: Color
      ensures ColorCount(MoveS(c), x) == ColorCount(c, x)
    {
      SetRowCount(c.U, Mid(c.n), Rev(Col(c.L, Mid(c.n))), x);
      RevMultiset(Col(c.L, Mid(c.n)));
      SetColCount(c.L, Mid(c.n), Row(c.D, Mid(c.n)), x);
      SetRowCount(c.D, Mid(c.n), Rev(Col(c.R, Mid(c.n))), x);
      RevMultiset(Col(c.R, Mid(c.n)));
      SetColCount(c.R, Mid(c.n), Row(c.U, Mid(c.n)), x);
    }
  }

  /** S' as written keeps the colours. */
  lemma MoveSPrimeAsWrittenColors(c: Cube)
    requires Valid(c)
    ensures SameColors(c, MoveSPrimeAsWritten(c))
  {
    hide Count, Rev, Col, SetCol;
    forall x: Color
      ensures ColorCount(MoveSPrimeAsWritten(c), x) == ColorCount(c, x)
    {
      SetRowCount(c.U, Mid(c.n), Col(c.R, Mid(c.n)), x);
      SetColCount(c.R, Mid(c.n), Rev(Row(c.D, Mid(c.n))), x);
      RevMultiset(Row(c.D, Mid(c.n)));
      SetRowCount(c.D, Mid(c.n), Col(c.L, Mid(c.n)), x);
      SetColCount(c.L, Mid(c.n), Row(c.U, Mid(c.n)), x);
    }
  }

  /** S' keeps the colours. */
  lemma MoveSPrimeColors(c: Cube)
    requires Valid(c)
    ensures SameColors(c, MoveSPrime(c))
  {
    hide Count, Rev, Col, SetCol;
    forall x: Color
      ensures ColorCount(MoveSPrime(c), x) == ColorCount(c, x)
    {
      SetRowCount(c.U, Mid(c.n), Col(c.R, Mid(c.n)), x);
      SetColCount(c.R, Mid(c.n), Rev(Row(c.D, Mid(c.n))), x);
      RevMultiset(Row(c.D, Mid(c.n)));
      SetRowCount(c.D, Mid(c.n), Col(c.L, Mid(c.n)), x);
      SetColCount(c.L, Mid(c.n), Rev(Row(c.U, Mid(c.n))), x);
      RevMultiset(Row(c.U, Mid(c.n)));
    }
  }
}
