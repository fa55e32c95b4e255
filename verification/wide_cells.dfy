/**
  Where every facelet goes under the wide-turn loops. For each loop and
  each face it writes, a step lemma gives the cells after one iteration,
  and a closed form gives them after `k` iterations in terms of the cube
  the loop started from: the first `k` ribbons hold the neighbour's
  ribbons (reversed where the source reverses), all other cells are
  untouched. The closed forms are what the inverse and order laws use.
*/
module WideCells {
  import opened Grids
  import opened Cubes
  import opened WideMoves

  /** `UwLayers` is its loop: no iterations, or the first k-1 and then one more. */
  lemma UwLayersUnfold(c: Cube, k: nat)
    requires Valid(c) && k <= c.n
    ensures k == 0 ==> UwLayers(c, k) == c
    ensures k > 0 ==> UwLayers(c, k) == UwLayer(UwLayers(c, k - 1), k - 1)
  {
  }

  lemma UwLayerF(c: Cube, j: nat)
    requires Valid(c) && j < c.n
    ensures forall y | 0 <= y < c.n :: UwLayer(c, j).F[j][y] == c.R[j][y]
    ensures forall x, y | 0 <= x < c.n && 0 <= y < c.n && x != j :: UwLayer(c, j).F[x][y] == c.F[x][y]
  {
  }

  lemma UwLayerR(c: Cube, j: nat)
    requires Valid(c) && j < c.n
    ensures forall y | 0 <= y < c.n :: UwLayer(c, j).R[j][y] == c.B[j][y]
    ensures forall x, y | 0 <= x < c.n && 0 <= y < c.n && x != j :: UwLayer(c, j).R[x][y] == c.R[x][y]
  {
  }

  lemma UwLayerB(c: Cube, j: nat)
    requires Valid(c) && j < c.n
    ensures forall y | 0 <= y < c.n :: UwLayer(c, j).B[j][y] == c.L[j][y]
    ensures forall x, y | 0 <= x < c.n && 0 <= y < c.n && x != j :: UwLayer(c, j).B[x][y] == c.B[x][y]
  {
  }

  lemma UwLayerL(c: Cube, j: nat)
    requires Valid(c) && j < c.n
    ensures forall y | 0 <= y < c.n :: UwLayer(c, j).L[j][y] == c.F[j][y]
    ensures forall x, y | 0 <= x < c.n && 0 <= y < c.n && x != j :: UwLayer(c, j).L[x][y] == c.L[x][y]
  {
  }

  lemma {:induction false} UwLayersF(c: Cube, k: nat)
    requires Valid(c) && k <= c.n
    ensures forall x, y | 0 <= x < k && 0 <= y < c.n :: UwLayers(c, k).F[x][y] == c.R[x][y]
    ensures forall x, y | k <= x < c.n && 0 <= y < c.n :: UwLayers(c, k).F[x][y] == c.F[x][y]
  {
    hide *;
    UwLayersUnfold(c, k);
    if k > 0 {
      UwLayersF(c, k - 1);
      UwLayersR(c, k - 1);
      UwLayerF(UwLayers(c, k - 1), k - 1);
    }
  }

  lemma {:induction false} UwLayersR(c: Cube, k: nat)
    requires Valid(c) && k <= c.n
    ensures forall x, y | 0 <= x < k && 0 <= y < c.n :: UwLayers(c, k).R[x][y] == c.B[x][y]
    ensures forall x, y | k <= x < c.n && 0 <= y < c.n :: UwLayers(c, k).R[x][y] == c.R[x][y]
  {
    hide *;
    UwLayersUnfold(c, k);
    if k > 0 {
      UwLayersR(c, k - 1);
      UwLayersB(c, k - 1);
      UwLayerR(UwLayers(c, k - 1), k - 1);
    }
  }

  lemma {:induction false} UwLayersB(c: Cube, k: nat)
    requires Valid(c) && k <= c.n
    ensures forall x, y | 0 <= x < k && 0 <= y < c.n :: UwLayers(c, k).B[x][y] == c.L[x][y]
    ensures forall x, y | k <= x < c.n && 0 <= y < c.n :: UwLayers(c, k).B[x][y] == c.B[x][y]
  {
    hide *;
    UwLayersUnfold(c, k);
    if k > 0 {
      UwLayersB(c, k - 1);
      UwLayersL(c, k - 1);
      UwLayerB(UwLayers(c, k - 1), k - 1);
    }
  }

  lemma {:induction false} UwLayersL(c: Cube, k: nat)
    requires Valid(c) && k <= c.n
    ensures forall x, y | 0 <= x < k && 0 <= y < c.n :: UwLayers(c, k).L[x][y] == c.F[x][y]
    ensures forall x, y | k <= x < c.n && 0 <= y < c.n :: UwLayers(c, k).L[x][y] == c.L[x][y]
  {
    hide *;
    UwLayersUnfold(c, k);
    if k > 0 {
      UwLayersL(c, k - 1);
      UwLayersF(c, k - 1);
      UwLayerL(UwLayers(c, k - 1), k - 1);
    }
  }

  /** `UwPrimeLayers` is its loop: no iterations, or the first k-1 and then one more. */
  lemma UwPrimeLayersUnfold(c: Cube, k: nat)
    requires Valid(c) && k <= c.n
    ensures k == 0 ==> UwPrimeLayers(c, k) == c
    ensures k > 0 ==> UwPrimeLayers(c, k) == UwPrimeLayer(UwPrimeLayers(c, k - 1), k - 1)
  {
  }

  lemma UwPrimeLayerF(c: Cube, j: nat)
    requires Valid(c) && j < c.n
    ensures forall y | 0 <= y < c.n :: UwPrimeLayer(c, j).F[j][y] == c.L[j][y]
    ensures forall x, y | 0 <= x < c.n && 0 <= y < c.n && x != j :: UwPrimeLayer(c, j).F[x][y] == c.F[x][y]
  {
  }

  lemma UwPrimeLayerL(c: Cube, j: nat)
    requires Valid(c) && j < c.n
    ensures forall y | 0 <= y < c.n :: UwPrimeLayer(c, j).L[j][y] == c.B[j][y]
    ensures forall x, y | 0 <= x < c.n && 0 <= y < c.n && x != j :: UwPrimeLayer(c, j).L[x][y] == c.L[x][y]
  {
  }

  lemma UwPrimeLayerB(c: Cube, j: nat)
    requires Valid(c) && j < c.n
    ensures forall y | 0 <= y < c.n :: UwPrimeLayer(c, j).B[j][y] == c.R[j][y]
    ensures forall x, y | 0 <= x < c.n && 0 <= y < c.n && x != j :: UwPrimeLayer(c, j).B[x][y] == c.B[x][y]
  {
  }

  lemma UwPrimeLayerR(c: Cube, j: nat)
    requires Valid(c) && j < c.n
    ensures forall y | 0 <= y < c.n :: UwPrimeLayer(c, j).R[j][y] == c.F[j][y]
    ensures forall x, y | 0 <= x < c.n && 0 <= y < c.n && x != j :: UwPrimeLayer(c, j).R[x][y] == c.R[x][y]
  {
  }

  lemma {:induction false} UwPrimeLayersF(c: Cube, k: nat)
    requires Valid(c) && k <= c.n
    ensures forall x, y | 0 <= x < k && 0 <= y < c.n :: UwPrimeLayers(c, k).F[x][y] == c.L[x][y]
    ensures forall x, y | k <= x < c.n && 0 <= y < c.n :: UwPrimeLayers(c, k).F[x][y] == c.F[x][y]
  {
    hide *;
    UwPrimeLayersUnfold(c, k);
    if k > 0 {
      UwPrimeLayersF(c, k - 1);
      UwPrimeLayersL(c, k - 1);
      UwPrimeLayerF(UwPrimeLayers(c, k - 1), k - 1);
    }
  }

  lemma {:induction false} UwPrimeLayersL(c: Cube, k: nat)
    requires Valid(c) && k <= c.n
    ensures forall x, y | 0 <= x < k && 0 <= y < c.n :: UwPrimeLayers(c, k).L[x][y] == c.B[x][y]
    ensures forall x, y | k <= x < c.n && 0 <= y < c.n :: UwPrimeLayers(c, k).L[x][y] == c.L[x][y]
  {
    hide *;
    UwPrimeLayersUnfold(c, k);
    if k > 0 {
      UwPrimeLayersL(c, k - 1);
      UwPrimeLayersB(c, k - 1);
      UwPrimeLayerL(UwPrimeLayers(c, k - 1), k - 1);
    }
  }

  lemma {:induction false} UwPrimeLayersB(c: Cube, k: nat)
    requires Valid(c) && k <= c.n
    ensures forall x, y | 0 <= x < k && 0 <= y < c.n :: UwPrimeLayers(c, k).B[x][y] == c.R[x][y]
    ensures forall x, y | k <= x < c.n && 0 <= y < c.n :: UwPrimeLayers(c, k).B[x][y] == c.B[x][y]
  {
    hide *;
    UwPrimeLayersUnfold(c, k);
    if k > 0 {
      UwPrimeLayersB(c, k - 1);
      UwPrimeLayersR(c, k - 1);
      UwPrimeLayerB(UwPrimeLayers(c, k - 1), k - 1);
    }
  }

  lemma {:induction false} UwPrimeLayersR(c: Cube, k: nat)
    requires Valid(c) && k <= c.n
    ensures forall x, y | 0 <= x < k && 0 <= y < c.n :: UwPrimeLayers(c, k).R[x][y] == c.F[x][y]
    ensures forall x, y | k <= x < c.n && 0 <= y < c.n :: UwPrimeLayers(c, k).R[x][y] == c.R[x][y]
  {
    hide *;
    UwPrimeLayersUnfold(c, k);
    if k > 0 {
      UwPrimeLayersR(c, k - 1);
      UwPrimeLayersF(c, k - 1);
      UwPrimeLayerR(UwPrimeLayers(c, k - 1), k - 1);
    }
  }

  /** `DwLayers` is its loop: no iterations, or the first k-1 and then one more. */
  lemma DwLayersUnfold(c: Cube, k: nat)
    requires Valid(c) && k <= c.n
    ensures k == 0 ==> DwLayers(c, k) == c
    ensures k > 0 ==> DwLayers(c, k) == DwLayer(DwLayers(c, k - 1), k - 1)
  {
  }

  lemma DwLayerF(c: Cube, j: nat, r: nat)
    requires Valid(c) && j < c.n && r == c.n - 1 - j
    ensures forall y | 0 <= y < c.n :: DwLayer(c, j).F[r][y] == c.L[c.n - 1 - j][y]
    ensures forall x, y | 0 <= x < c.n && 0 <= y < c.n && x != r :: DwLayer(c, j).F[x][y] == c.F[x][y]
  {
  }

  lemma DwLayerL(c: Cube, j: nat, r: nat)
    requires Valid(c) && j < c.n && r == c.n - 1 - j
    ensures forall y | 0 <= y < c.n :: DwLayer(c, j).L[r][y] == c.B[c.n - 1 - j][y]
    ensures forall x, y | 0 <= x < c.n && 0 <= y < c.n && x != r :: DwLayer(c, j).L[x][y] == c.L[x][y]
  {
  }

  lemma DwLayerB(c: Cube, j: nat, r: nat)
    requires Valid(c) && j < c.n && r == c.n - 1 - j
    ensures forall y | 0 <= y < c.n :: DwLayer(c, j).B[r][y] == c.R[c.n - 1 - j][y]
    ensures forall x, y | 0 <= x < c.n && 0 <= y < c.n && x != r :: DwLayer(c, j).B[x][y] == c.B[x][y]
  {
  }

  lemma DwLayerR(c: Cube, j: nat, r: nat)
    requires Valid(c) && j < c.n && r == c.n - 1 - j
    ensures forall y | 0 <= y < c.n :: DwLayer(c, j).R[r][y] == c.F[c.n - 1 - j][y]
    ensures forall x, y | 0 <= x < c.n && 0 <= y < c.n && x != r :: DwLayer(c, j).R[x][y] == c.R[x][y]
  {
  }

  lemma {:induction false} DwLayersF(c: Cube, k: nat)
    requires Valid(c) && k <= c.n
    ensures forall x, y | c.n - k <= x < c.n && 0 <= y < c.n :: DwLayers(c, k).F[x][y] == c.L[x][y]
    ensures forall x, y | 0 <= x < c.n - k && 0 <= y < c.n :: DwLayers(c, k).F[x][y] == c.F[x][y]
  {
    hide *;
    DwLayersUnfold(c, k);
    if k > 0 {
      DwLayersF(c, k - 1);
      DwLayersL(c, k - 1);
      DwLayerF(DwLayers(c, k - 1), k - 1, c.n - 1 - (k - 1));
    }
  }

  lemma {:induction false} DwLayersL(c: Cube, k: nat)
    requires Valid(c) && k <= c.n
    ensures forall x, y | c.n - k <= x < c.n && 0 <= y < c.n :: DwLayers(c, k).L[x][y] == c.B[x][y]
    ensures forall x, y | 0 <= x < c.n - k && 0 <= y < c.n :: DwLayers(c, k).L[x][y] == c.L[x][y]
  {
    hide *;
    DwLayersUnfold(c, k);
    if k > 0 {
      DwLayersL(c, k - 1);
      DwLayersB(c, k - 1);
      DwLayerL(DwLayers(c, k - 1), k - 1, c.n - 1 - (k - 1));
    }
  }

  lemma {:induction false} DwLayersB(c: Cube, k: nat)
    requires Valid(c) && k <= c.n
    ensures forall x, y | c.n - k <= x < c.n && 0 <= y < c.n :: DwLayers(c, k).B[x][y] == c.R[x][y]
    ensures forall x, y | 0 <= x < c.n - k && 0 <= y < c.n :: DwLayers(c, k).B[x][y] == c.B[x][y]
  {
    hide *;
    DwLayersUnfold(c, k);
    if k > 0 {
      DwLayersB(c, k - 1);
      DwLayersR(c, k - 1);
      DwLayerB(DwLayers(c, k - 1), k - 1, c.n - 1 - (k - 1));
    }
  }

  lemma {:induction false} DwLayersR(c: Cube, k: nat)
    requires Valid(c) && k <= c.n
    ensures forall x, y | c.n - k <= x < c.n && 0 <= y < c.n :: DwLayers(c, k).R[x][y] == c.F[x][y]
    ensures forall x, y | 0 <= x < c.n - k && 0 <= y < c.n :: DwLayers(c, k).R[x][y] == c.R[x][y]
  {
    hide *;
    DwLayersUnfold(c, k);
    if k > 0 {
      DwLayersR(c, k - 1);
      DwLayersF(c, k - 1);
      DwLayerR(DwLayers(c, k - 1), k - 1, c.n - 1 - (k - 1));
    }
  }

  /** `DwPrimeLayers` is its loop: no iterations, or the first k-1 and then one more. */
  lemma DwPrimeLayersUnfold(c: Cube, k: nat)
    requires Valid(c) && k <= c.n
    ensures k == 0 ==> DwPrimeLayers(c, k) == c
    ensures k > 0 ==> DwPrimeLayers(c, k) == DwPrimeLayer(DwPrimeLayers(c, k - 1), k - 1)
  {
  }

  lemma DwPrimeLayerF(c: Cube, j: nat, r: nat)
    requires Valid(c) && j < c.n && r == c.n - 1 - j
    ensures forall y | 0 <= y < c.n :: DwPrimeLayer(c, j).F[r][y] == c.R[c.n - 1 - j][y]
    ensures forall x, y | 0 <= x < c.n && 0 <= y < c.n && x != r :: DwPrimeLayer(c, j).F[x][y] == c.F[x][y]
  {
  }

  lemma DwPrimeLayerR(c: Cube, j: nat, r: nat)
    requires Valid(c) && j < c.n && r == c.n - 1 - j
    ensures forall y | 0 <= y < c.n :: DwPrimeLayer(c, j).R[r][y] == c.B[c.n - 1 - j][y]
    ensures forall x, y | 0 <= x < c.n && 0 <= y < c.n && x != r :: DwPrimeLayer(c, j).R[x][y] == c.R[x][y]
  {
  }

  lemma DwPrimeLayerB(c: Cube, j: nat, r: nat)
    requires Valid(c) && j < c.n && r == c.n - 1 - j
    ensures forall y | 0 <= y < c.n :: DwPrimeLayer(c, j).B[r][y] == c.L[c.n - 1 - j][y]
    ensures forall x, y | 0 <= x < c.n && 0 <= y < c.n && x != r :: DwPrimeLayer(c, j).B[x][y] == c.B[x][y]
  {
  }

  lemma DwPrimeLayerL(c: Cube, j: nat, r: nat)
    requires Valid(c) && j < c.n && r == c.n - 1 - j
    ensures forall y | 0 <= y < c.n :: DwPrimeLayer(c, j).L[r][y] == c.F[c.n - 1 - j][y]
    ensures forall x, y | 0 <= x < c.n && 0 <= y < c.n && x != r :: DwPrimeLayer(c, j).L[x][y] == c.L[x][y]
  {
  }

  lemma {:induction false} DwPrimeLayersF(c: Cube, k: nat)
    requires Valid(c) && k <= c.n
    ensures forall x, y | c.n - k <= x < c.n && 0 <= y < c.n :: DwPrimeLayers(c, k).F[x][y] == c.R[x][y]
    ensures forall x, y | 0 <= x < c.n - k && 0 <= y < c.n :: DwPrimeLayers(c, k).F[x][y] == c.F[x][y]
  {
    hide *;
    DwPrimeLayersUnfold(c, k);
    if k > 0 {
      DwPrimeLayersF(c, k - 1);
      DwPrimeLayersR(c, k - 1);
      DwPrimeLayerF(DwPrimeLayers(c, k - 1), k - 1, c.n - 1 - (k - 1));
    }
  }

  lemma {:induction false} DwPrimeLayersR(c: Cube, k: nat)
    requires Valid(c) && k <= c.n
    ensures forall x, y | c.n - k <= x < c.n && 0 <= y < c.n :: DwPrimeLayers(c, k).R[x][y] == c.B[x][y]
    ensures forall x, y | 0 <= x < c.n - k && 0 <= y < c.n :: DwPrimeLayers(c, k).R[x][y] == c.R[x][y]
  {
    hide *;
    DwPrimeLayersUnfold(c, k);
    if k > 0 {
      DwPrimeLayersR(c, k - 1);
      DwPrimeLayersB(c, k - 1);
      DwPrimeLayerR(DwPrimeLayers(c, k - 1), k - 1, c.n - 1 - (k - 1));
    }
  }

  lemma {:induction false} DwPrimeLayersB(c: Cube, k: nat)
    requires Valid(c) && k <= c.n
    ensures forall x, y | c.n - k <= x < c.n && 0 <= y < c.n :: DwPrimeLayers(c, k).B[x][y] == c.L[x][y]
    ensures forall x, y | 0 <= x < c.n - k && 0 <= y < c.n :: DwPrimeLayers(c, k).B[x][y] == c.B[x][y]
  {
    hide *;
    DwPrimeLayersUnfold(c, k);
    if k > 0 {
      DwPrimeLayersB(c, k - 1);
      DwPrimeLayersL(c, k - 1);
      DwPrimeLayerB(DwPrimeLayers(c, k - 1), k - 1, c.n - 1 - (k - 1));
    }
  }

  lemma {:induction false} DwPrimeLayersL(c: Cube, k: nat)
    requires Valid(c) && k <= c.n
    ensures forall x, y | c.n - k <= x < c.n && 0 <= y < c.n :: DwPrimeLayers(c, k).L[x][y] == c.F[x][y]
    ensures forall x, y | 0 <= x < c.n - k && 0 <= y < c.n :: DwPrimeLayers(c, k).L[x][y] == c.L[x][y]
  {
    hide *;
    DwPrimeLayersUnfold(c, k);
    if k > 0 {
      DwPrimeLayersL(c, k - 1);
      DwPrimeLayersF(c, k - 1);
      DwPrimeLayerL(DwPrimeLayers(c, k - 1), k - 1, c.n - 1 - (k - 1));
    }
  }

  /** `LwLayers` is its loop: no iterations, or the first k-1 and then one more. */
  lemma LwLayersUnfold(c: Cube, k: nat)
    requires Valid(c) && k <= c.n
    ensures k == 0 ==> LwLayers(c, k) == c
    ensures k > 0 ==> LwLayers(c, k) == LwLayer(LwLayers(c, k - 1), k - 1)
  {
  }

  lemma LwLayerU(c: Cube, j: nat)
    requires Valid(c) && j < c.n
    ensures forall x | 0 <= x < c.n :: LwLayer(c, j).U[x][j] == c.B[c.n - 1 - x][c.n - 1 - j]
    ensures forall x, y | 0 <= x < c.n && 0 <= y < c.n && y != j :: LwLayer(c, j).U[x][y] == c.U[x][y]
  {
  }

  lemma LwLayerB(c: Cube, j: nat, r: nat)
    requires Valid(c) && j < c.n && r == c.n - 1 - j
    ensures forall x | 0 <= x < c.n :: LwLayer(c, j).B[x][r] == c.D[c.n - 1 - x][j]
    ensures forall x, y | 0 <= x < c.n && 0 <= y < c.n && y != r :: LwLayer(c, j).B[x][y] == c.B[x][y]
  {
  }

  lemma LwLayerD(c: Cube, j: nat)
    requires Valid(c) && j < c.n
    ensures forall x | 0 <= x < c.n :: LwLayer(c, j).D[x][j] == c.F[x][j]
    ensures forall x, y | 0 <= x < c.n && 0 <= y < c.n && y != j :: LwLayer(c, j).D[x][y] == c.D[x][y]
  {
  }

  lemma LwLayerF(c: Cube, j: nat)
    requires Valid(c) && j < c.n
    ensures forall x | 0 <= x < c.n :: LwLayer(c, j).F[x][j] == c.U[x][j]
    ensures forall x, y | 0 <= x < c.n && 0 <= y < c.n && y != j :: LwLayer(c, j).F[x][y] == c.F[x][y]
  {
  }

  lemma {:induction false} LwLayersU(c: Cube, k: nat)
    requires Valid(c) && k <= c.n
    ensures forall x, y | 0 <= x < c.n && 0 <= y < k :: LwLayers(c, k).U[x][y] == c.B[c.n - 1 - x][c.n - 1 - y]
    ensures forall x, y | 0 <= x < c.n && k <= y < c.n :: LwLayers(c, k).U[x][y] == c.U[x][y]
  {
    hide *;
    LwLayersUnfold(c, k);
    if k > 0 {
      LwLayersU(c, k - 1);
      LwLayersB(c, k - 1);
      LwLayerU(LwLayers(c, k - 1), k - 1);
    }
  }

  lemma {:induction false} LwLayersB(c: Cube, k: nat)
    requires Valid(c) && k <= c.n
    ensures forall x, y | 0 <= x < c.n && c.n - k <= y < c.n :: LwLayers(c, k).B[x][y] == c.D[c.n - 1 - x][c.n - 1 - y]
    ensures forall x, y | 0 <= x < c.n && 0 <= y < c.n - k :: LwLayers(c, k).B[x][y] == c.B[x][y]
  {
    hide *;
    LwLayersUnfold(c, k);
    if k > 0 {
      LwLayersB(c, k - 1);
      LwLayersD(c, k - 1);
      LwLayerB(LwLayers(c, k - 1), k - 1, c.n - 1 - (k - 1));
    }
  }

  lemma {:induction false} LwLayersD(c: Cube, k: nat)
    requires Valid(c) && k <= c.n
    ensures forall x, y | 0 <= x < c.n && 0 <= y < k :: LwLayers(c, k).D[x][y] == c.F[x][y]
    ensures forall x, y | 0 <= x < c.n && k <= y < c.n :: LwLayers(c, k).D[x][y] == c.D[x][y]
  {
    hide *;
    LwLayersUnfold(c, k);
    if k > 0 {
      LwLayersD(c, k - 1);
      LwLayersF(c, k - 1);
      LwLayerD(LwLayers(c, k - 1), k - 1);
    }
  }

  lemma {:induction false} LwLayersF(c: Cube, k: nat)
    requires Valid(c) && k <= c.n
    ensures forall x, y | 0 <= x < c.n && 0 <= y < k :: LwLayers(c, k).F[x][y] == c.U[x][y]
    ensures forall x, y | 0 <= x < c.n && k <= y < c.n :: LwLayers(c, k).F[x][y] == c.F[x][y]
  {
    hide *;
    LwLayersUnfold(c, k);
    if k > 0 {
      LwLayersF(c, k - 1);
      LwLayersU(c, k - 1);
      LwLayerF(LwLayers(c, k - 1), k - 1);
    }
  }

  /** `LwPrimeLayers` is its loop: no iterations, or the first k-1 and then one more. */
  lemma LwPrimeLayersUnfold(c: Cube, k: nat)
    requires Valid(c) && k <= c.n
    ensures k == 0 ==> LwPrimeLayers(c, k) == c
    ensures k > 0 ==> LwPrimeLayers(c, k) == LwPrimeLayer(LwPrimeLayers(c, k - 1), k - 1)
  {
  }

  lemma LwPrimeLayerU(c: Cube, j: nat)
    requires Valid(c) && j < c.n
    ensures forall x | 0 <= x < c.n :: LwPrimeLayer(c, j).U[x][j] == c.F[x][j]
    ensures forall x, y | 0 <= x < c.n && 0 <= y < c.n && y != j :: LwPrimeLayer(c, j).U[x][y] == c.U[x][y]
  {
  }

  lemma LwPrimeLayerF(c: Cube, j: nat)
    requires Valid(c) && j < c.n
    ensures forall x | 0 <= x < c.n :: LwPrimeLayer(c, j).F[x][j] == c.D[x][j]
    ensures forall x, y | 0 <= x < c.n && 0 <= y < c.n && y != j :: LwPrimeLayer(c, j).F[x][y] == c.F[x][y]
  {
  }

  lemma LwPrimeLayerD(c: Cube, j: nat)
    requires Valid(c) && j < c.n
    ensures forall x | 0 <= x < c.n :: LwPrimeLayer(c, j).D[x][j] == c.B[c.n - 1 - x][c.n - 1 - j]
    ensures forall x, y | 0 <= x < c.n && 0 <= y < c.n && y != j :: LwPrimeLayer(c, j).D[x][y] == c.D[x][y]
  {
  }

  lemma LwPrimeLayerB(c: Cube, j: nat, r: nat)
    requires Valid(c) && j < c.n && r == c.n - 1 - j
    ensures forall x | 0 <= x < c.n :: LwPrimeLayer(c, j).B[x][r] == c.U[c.n - 1 - x][j]
    ensures forall x, y | 0 <= x < c.n && 0 <= y < c.n && y != r :: LwPrimeLayer(c, j).B[x][y] == c.B[x][y]
  {
  }

  lemma {:induction false} LwPrimeLayersU(c: Cube, k: nat)
    requires Valid(c) && k <= c.n
    ensures forall x, y | 0 <= x < c.n && 0 <= y < k :: LwPrimeLayers(c, k).U[x][y] == c.F[x][y]
    ensures forall x, y | 0 <= x < c.n && k <= y < c.n :: LwPrimeLayers(c, k).U[x][y] == c.U[x][y]
  {
    hide *;
    LwPrimeLayersUnfold(c, k);
    if k > 0 {
      LwPrimeLayersU(c, k - 1);
      LwPrimeLayersF(c, k - 1);
      LwPrimeLayerU(LwPrimeLayers(c, k - 1), k - 1);
    }
  }

  lemma {:induction false} LwPrimeLayersF(c: Cube, k: nat)
    requires Valid(c) && k <= c.n
    ensures forall x, y | 0 <= x < c.n && 0 <= y < k :: LwPrimeLayers(c, k).F[x][y] == c.D[x][y]
    ensures forall x, y | 0 <= x < c.n && k <= y < c.n :: LwPrimeLayers(c, k).F[x][y] == c.F[x][y]
  {
    hide *;
    LwPrimeLayersUnfold(c, k);
    if k > 0 {
      LwPrimeLayersF(c, k - 1);
      LwPrimeLayersD(c, k - 1);
      LwPrimeLayerF(LwPrimeLayers(c, k - 1), k - 1);
    }
  }

  lemma {:induction false} LwPrimeLayersD(c: Cube, k: nat)
    requires Valid(c) && k <= c.n
    ensures forall x, y | 0 <= x < c.n && 0 <= y < k :: LwPrimeLayers(c, k).D[x][y] == c.B[c.n - 1 - x][c.n - 1 - y]
    ensures forall x, y | 0 <= x < c.n && k <= y < c.n :: LwPrimeLayers(c, k).D[x][y] == c.D[x][y]
  {
    hide *;
    LwPrimeLayersUnfold(c, k);
    if k > 0 {
      LwPrimeLayersD(c, k - 1);
      LwPrimeLayersB(c, k - 1);
      LwPrimeLayerD(LwPrimeLayers(c, k - 1), k - 1);
    }
  }

  lemma {:induction false} LwPrimeLayersB(c: Cube, k: nat)
    requires Valid(c) && k <= c.n
    ensures forall x, y | 0 <= x < c.n && c.n - k <= y < c.n :: LwPrimeLayers(c, k).B[x][y] == c.U[c.n - 1 - x][c.n - 1 - y]
    ensures forall x, y | 0 <= x < c.n && 0 <= y < c.n - k :: LwPrimeLayers(c, k).B[x][y] == c.B[x][y]
  {
    hide *;
    LwPrimeLayersUnfold(c, k);
    if k > 0 {
      LwPrimeLayersB(c, k - 1);
      LwPrimeLayersU(c, k - 1);
      LwPrimeLayerB(LwPrimeLayers(c, k - 1), k - 1, c.n - 1 - (k - 1));
    }
  }

  /** `RwLayers` is its loop: no iterations, or the first k-1 and then one more. */
  lemma RwLayersUnfold(c: Cube, k: nat)
    requires Valid(c) && k <= c.n
    ensures k == 0 ==> RwLayers(c, k) == c
    ensures k > 0 ==> RwLayers(c, k) == RwLayer(RwLayers(c, k - 1), k - 1)
  {
  }

  lemma RwLayerU(c: Cube, j: nat, r: nat)
    requires Valid(c) && j < c.n && r == c.n - 1 - j
    ensures forall x | 0 <= x < c.n :: RwLayer(c, j).U[x][r] == c.B[c.n - 1 - x][j]
    ensures forall x, y | 0 <= x < c.n && 0 <= y < c.n && y != r :: RwLayer(c, j).U[x][y] == c.U[x][y]
  {
  }

  lemma RwLayerB(c: Cube, j: nat)
    requires Valid(c) && j < c.n
    ensures forall x | 0 <= x < c.n :: RwLayer(c, j).B[x][j] == c.D[c.n - 1 - x][c.n - 1 - j]
    ensures forall x, y | 0 <= x < c.n && 0 <= y < c.n && y != j :: RwLayer(c, j).B[x][y] == c.B[x][y]
  {
  }

  lemma RwLayerD(c: Cube, j: nat, r: nat)
    requires Valid(c) && j < c.n && r == c.n - 1 - j
    ensures forall x | 0 <= x < c.n :: RwLayer(c, j).D[x][r] == c.F[x][c.n - 1 - j]
    ensures forall x, y | 0 <= x < c.n && 0 <= y < c.n && y != r :: RwLayer(c, j).D[x][y] == c.D[x][y]
  {
  }

  lemma RwLayerF(c: Cube, j: nat, r: nat)
    requires Valid(c) && j < c.n && r == c.n - 1 - j
    ensures forall x | 0 <= x < c.n :: RwLayer(c, j).F[x][r] == c.U[x][c.n - 1 - j]
    ensures forall x, y | 0 <= x < c.n && 0 <= y < c.n && y != r :: RwLayer(c, j).F[x][y] == c.F[x][y]
  {
  }

  lemma {:induction false} RwLayersU(c: Cube, k: nat)
    requires Valid(c) && k <= c.n
    ensures forall x, y | 0 <= x < c.n && c.n - k <= y < c.n :: RwLayers(c, k).U[x][y] == c.B[c.n - 1 - x][c.n - 1 - y]
    ensures forall x, y | 0 <= x < c.n && 0 <= y < c.n - k :: RwLayers(c, k).U[x][y] == c.U[x][y]
  {
    hide *;
    RwLayersUnfold(c, k);
    if k > 0 {
      RwLayersU(c, k - 1);
      RwLayersB(c, k - 1);
      RwLayerU(RwLayers(c, k - 1), k - 1, c.n - 1 - (k - 1));
    }
  }

  lemma {:induction false} RwLayersB(c: Cube, k: nat)
    requires Valid(c) && k <= c.n
    ensures forall x, y | 0 <= x < c.n && 0 <= y < k :: RwLayers(c, k).B[x][y] == c.D[c.n - 1 - x][c.n - 1 - y]
    ensures forall x, y | 0 <= x < c.n && k <= y < c.n :: RwLayers(c, k).B[x][y] == c.B[x][y]
  {
    hide *;
    RwLayersUnfold(c, k);
    if k > 0 {
      RwLayersB(c, k - 1);
      RwLayersD(c, k - 1);
      RwLayerB(RwLayers(c, k - 1), k - 1);
    }
  }

  lemma {:induction false} RwLayersD(c: Cube, k: nat)
    requires Valid(c) && k <= c.n
    ensures forall x, y | 0 <= x < c.n && c.n - k <= y < c.n :: RwLayers(c, k).D[x][y] == c.F[x][y]
    ensures forall x, y | 0 <= x < c.n && 0 <= y < c.n - k :: RwLayers(c, k).D[x][y] == c.D[x][y]
  {
    hide *;
    RwLayersUnfold(c, k);
    if k > 0 {
      RwLayersD(c, k - 1);
      RwLayersF(c, k - 1);
      RwLayerD(RwLayers(c, k - 1), k - 1, c.n - 1 - (k - 1));
    }
  }

  lemma {:induction false} RwLayersF(c: Cube, k: nat)
    requires Valid(c) && k <= c.n
    ensures forall x, y | 0 <= x < c.n && c.n - k <= y < c.n :: RwLayers(c, k).F[x][y] == c.U[x][y]
    ensures forall x, y | 0 <= x < c.n && 0 <= y < c.n - k :: RwLayers(c, k).F[x][y] == c.F[x][y]
  {
    hide *;
    RwLayersUnfold(c, k);
    if k > 0 {
      RwLayersF(c, k - 1);
      RwLayersU(c, k - 1);
      RwLayerF(RwLayers(c, k - 1), k - 1, c.n - 1 - (k - 1));
    }
  }

  /** `RwPrimeLayers` is its loop: no iterations, or the first k-1 and then one more. */
  lemma RwPrimeLayersUnfold(c: Cube, k: nat)
    requires Valid(c) && k <= c.n
    ensures k == 0 ==> RwPrimeLayers(c, k) == c
    ensures k > 0 ==> RwPrimeLayers(c, k) == RwPrimeLayer(RwPrimeLayers(c, k - 1), k - 1)
  {
  }

  lemma RwPrimeLayerU(c: Cube, j: nat, r: nat)
    requires Valid(c) && j < c.n && r == c.n - 1 - j
    ensures forall x | 0 <= x < c.n :: RwPrimeLayer(c, j).U[x][r] == c.F[x][c.n - 1 - j]
    ensures forall x, y | 0 <= x < c.n && 0 <= y < c.n && y != r :: RwPrimeLayer(c, j).U[x][y] == c.U[x][y]
  {
  }

  lemma RwPrimeLayerF(c: Cube, j: nat, r: nat)
    requires Valid(c) && j < c.n && r == c.n - 1 - j
    ensures forall x | 0 <= x < c.n :: RwPrimeLayer(c, j).F[x][r] == c.D[x][c.n - 1 - j]
    ensures forall x, y | 0 <= x < c.n && 0 <= y < c.n && y != r :: RwPrimeLayer(c, j).F[x][y] == c.F[x][y]
  {
  }

  lemma RwPrimeLayerD(c: Cube, j: nat, r: nat)
    requires Valid(c) && j < c.n && r == c.n - 1 - j
    ensures forall x | 0 <= x < c.n :: RwPrimeLayer(c, j).D[x][r] == c.B[c.n - 1 - x][j]
    ensures forall x, y | 0 <= x < c.n && 0 <= y < c.n && y != r :: RwPrimeLayer(c, j).D[x][y] == c.D[x][y]
  {
  }

  lemma RwPrimeLayerB(c: Cube, j: nat)
    requires Valid(c) && j < c.n
    ensures forall x | 0 <= x < c.n :: RwPrimeLayer(c, j).B[x][j] == c.U[c.n - 1 - x][c.n - 1 - j]
    ensures forall x, y | 0 <= x < c.n && 0 <= y < c.n && y != j :: RwPrimeLayer(c, j).B[x][y] == c.B[x][y]
  {
  }

  lemma {:induction false} RwPrimeLayersU(c: Cube, k: nat)
    requires Valid(c) && k <= c.n
    ensures forall x, y | 0 <= x < c.n && c.n - k <= y < c.n :: RwPrimeLayers(c, k).U[x][y] == c.F[x][y]
    ensures forall x, y | 0 <= x < c.n && 0 <= y < c.n - k :: RwPrimeLayers(c, k).U[x][y] == c.U[x][y]
  {
    hide *;
    RwPrimeLayersUnfold(c, k);
    if k > 0 {
      RwPrimeLayersU(c, k - 1);
      RwPrimeLayersF(c, k - 1);
      RwPrimeLayerU(RwPrimeLayers(c, k - 1), k - 1, c.n - 1 - (k - 1));
    }
  }

  lemma {:induction false} RwPrimeLayersF(c: Cube, k: nat)
    requires Valid(c) && k <= c.n
    ensures forall x, y | 0 <= x < c.n && c.n - k <= y < c.n :: RwPrimeLayers(c, k).F[x][y] == c.D[x][y]
    ensures forall x, y | 0 <= x < c.n && 0 <= y < c.n - k :: RwPrimeLayers(c, k).F[x][y] == c.F[x][y]
  {
    hide *;
    RwPrimeLayersUnfold(c, k);
    if k > 0 {
      RwPrimeLayersF(c, k - 1);
      RwPrimeLayersD(c, k - 1);
      RwPrimeLayerF(RwPrimeLayers(c, k - 1), k - 1, c.n - 1 - (k - 1));
    }
  }

  lemma {:induction false} RwPrimeLayersD(c: Cube, k: nat)
    requires Valid(c) && k <= c.n
    ensures forall x, y | 0 <= x < c.n && c.n - k <= y < c.n :: RwPrimeLayers(c, k).D[x][y] == c.B[c.n - 1 - x][c.n - 1 - y]
    ensures forall x, y | 0 <= x < c.n && 0 <= y < c.n - k :: RwPrimeLayers(c, k).D[x][y] == c.D[x][y]
  {
    hide *;
    RwPrimeLayersUnfold(c, k);
    if k > 0 {
      RwPrimeLayersD(c, k - 1);
      RwPrimeLayersB(c, k - 1);
      RwPrimeLayerD(RwPrimeLayers(c, k - 1), k - 1, c.n - 1 - (k - 1));
    }
  }

  lemma {:induction false} RwPrimeLayersB(c: Cube, k: nat)
    requires Valid(c) && k <= c.n
    ensures forall x, y | 0 <= x < c.n && 0 <= y < k :: RwPrimeLayers(c, k).B[x][y] == c.U[c.n - 1 - x][c.n - 1 - y]
    ensures forall x, y | 0 <= x < c.n && k <= y < c.n :: RwPrimeLayers(c, k).B[x][y] == c.B[x][y]
  {
    hide *;
    RwPrimeLayersUnfold(c, k);
    if k > 0 {
      RwPrimeLayersB(c, k - 1);
      RwPrimeLayersU(c, k - 1);
      RwPrimeLayerB(RwPrimeLayers(c, k - 1), k - 1);
    }
  }

  /** `FwLayers` is its loop: no iterations, or the first k-1 and then one more. */
  lemma FwLayersUnfold(c: Cube, start: nat, k: nat)
    requires Valid(c) && start + k <= c.n
    ensures k == 0 ==> FwLayers(c, start, k) == c
    ensures k > 0 ==> FwLayers(c, start, k) == FwLayer(FwLayers(c, start, k - 1), start, k - 1)
  {
  }

  lemma FwLayerU(c: Cube, start: nat, j: nat, r: nat)
    requires Valid(c) && start + j < c.n && r == start + j
    ensures forall y | 0 <= y < c.n :: FwLayer(c, start, j).U[r][y] == c.L[c.n - 1 - y][c.n - 1 - j]
    ensures forall x, y | 0 <= x < c.n && 0 <= y < c.n && x != r :: FwLayer(c, start, j).U[x][y] == c.U[x][y]
  {
  }

  lemma FwLayerL(c: Cube, start: nat, j: nat, r: nat)
    requires Valid(c) && start + j < c.n && r == c.n - 1 - j
    ensures forall x | 0 <= x < c.n :: FwLayer(c, start, j).L[x][r] == c.D[j][x]
    ensures forall x, y | 0 <= x < c.n && 0 <= y < c.n && y != r :: FwLayer(c, start, j).L[x][y] == c.L[x][y]
  {
  }

  lemma FwLayerD(c: Cube, start: nat, j: nat)
    requires Valid(c) && start + j < c.n
    ensures forall y | 0 <= y < c.n :: FwLayer(c, start, j).D[j][y] == c.R[c.n - 1 - y][j]
    ensures forall x, y | 0 <= x < c.n && 0 <= y < c.n && x != j :: FwLayer(c, start, j).D[x][y] == c.D[x][y]
  {
  }

  lemma FwLayerR(c: Cube, start: nat, j: nat)
    requires Valid(c) && start + j < c.n
    ensures forall x | 0 <= x < c.n :: FwLayer(c, start, j).R[x][j] == c.U[start + j][x]
    ensures forall x, y | 0 <= x < c.n && 0 <= y < c.n && y != j :: FwLayer(c, start, j).R[x][y] == c.R[x][y]
  {
  }

  lemma {:induction false} FwLayersU(c: Cube, start: nat, k: nat)
    requires Valid(c) && start + k <= c.n
    ensures forall x, y | start <= x < start + k && 0 <= y < c.n :: FwLayers(c, start, k).U[x][y] == c.L[c.n - 1 - y][c.n - 1 - (x - start)]
    ensures forall x, y | 0 <= x < start && 0 <= y < c.n :: FwLayers(c, start, k).U[x][y] == c.U[x][y]
    ensures forall x, y | start + k <= x < c.n && 0 <= y < c.n :: FwLayers(c, start, k).U[x][y] == c.U[x][y]
  {
    hide *;
    FwLayersUnfold(c, start, k);
    if k > 0 {
      FwLayersU(c, start, k - 1);
      FwLayersL(c, start, k - 1);
      FwLayerU(FwLayers(c, start, k - 1), start, k - 1, start + (k - 1));
    }
  }

  lemma {:induction false} FwLayersL(c: Cube, start: nat, k: nat)
    requires Valid(c) && start + k <= c.n
    ensures forall x, y | 0 <= x < c.n && c.n - k <= y < c.n :: FwLayers(c, start, k).L[x][y] == c.D[c.n - 1 - y][x]
    ensures forall x, y | 0 <= x < c.n && 0 <= y < c.n - k :: FwLayers(c, start, k).L[x][y] == c.L[x][y]
  {
    hide *;
    FwLayersUnfold(c, start, k);
    if k > 0 {
      FwLayersL(c, start, k - 1);
      FwLayersD(c, start, k - 1);
      FwLayerL(FwLayers(c, start, k - 1), start, k - 1, c.n - 1 - (k - 1));
    }
  }

  lemma {:induction false} FwLayersD(c: Cube, start: nat, k: nat)
    requires Valid(c) && start + k <= c.n
    ensures forall x, y | 0 <= x < k && 0 <= y < c.n :: FwLayers(c, start, k).D[x][y] == c.R[c.n - 1 - y][x]
    ensures forall x, y | k <= x < c.n && 0 <= y < c.n :: FwLayers(c, start, k).D[x][y] == c.D[x][y]
  {
    hide *;
    FwLayersUnfold(c, start, k);
    if k > 0 {
      FwLayersD(c, start, k - 1);
      FwLayersR(c, start, k - 1);
      FwLayerD(FwLayers(c, start, k - 1), start, k - 1);
    }
  }

  lemma {:induction false} FwLayersR(c: Cube, start: nat, k: nat)
    requires Valid(c) && start + k <= c.n
    ensures forall x, y | 0 <= x < c.n && 0 <= y < k :: FwLayers(c, start, k).R[x][y] == c.U[start + y][x]
    ensures forall x, y | 0 <= x < c.n && k <= y < c.n :: FwLayers(c, start, k).R[x][y] == c.R[x][y]
  {
    hide *;
    FwLayersUnfold(c, start, k);
    if k > 0 {
      FwLayersR(c, start, k - 1);
      FwLayersU(c, start, k - 1);
      FwLayerR(FwLayers(c, start, k - 1), start, k - 1);
    }
  }

  /** `FwPrimeLayers` is its loop: no iterations, or the first k-1 and then one more. */
  lemma FwPrimeLayersUnfold(c: Cube, start: nat, k: nat)
    requires Valid(c) && start + k <= c.n
    ensures k == 0 ==> FwPrimeLayers(c, start, k) == c
    ensures k > 0 ==> FwPrimeLayers(c, start, k) == FwPrimeLayer(FwPrimeLayers(c, start, k - 1), start, k - 1)
  {
  }

  lemma FwPrimeLayerU(c: Cube, start: nat, j: nat, r: nat)
    requires Valid(c) && start + j < c.n && r == start + j
    ensures forall y | 0 <= y < c.n :: FwPrimeLayer(c, start, j).U[r][y] == c.R[y][j]
    ensures forall x, y | 0 <= x < c.n && 0 <= y < c.n && x != r :: FwPrimeLayer(c, start, j).U[x][y] == c.U[x][y]
  {
  }

  lemma FwPrimeLayerR(c: Cube, start: nat, j: nat)
    requires Valid(c) && start + j < c.n
    ensures forall x | 0 <= x < c.n :: FwPrimeLayer(c, start, j).R[x][j] == c.D[j][c.n - 1 - x]
    ensures forall x, y | 0 <= x < c.n && 0 <= y < c.n && y != j :: FwPrimeLayer(c, start, j).R[x][y] == c.R[x][y]
  {
  }

  lemma FwPrimeLayerD(c: Cube, start: nat, j: nat)
    requires Valid(c) && start + j < c.n
    ensures forall y | 0 <= y < c.n :: FwPrimeLayer(c, start, j).D[j][y] == c.L[y][c.n - 1 - j]
    ensures forall x, y | 0 <= x < c.n && 0 <= y < c.n && x != j :: FwPrimeLayer(c, start, j).D[x][y] == c.D[x][y]
  {
  }

  lemma FwPrimeLayerL(c: Cube, start: nat, j: nat, r: nat)
    requires Valid(c) && start + j < c.n && r == c.n - 1 - j
    ensures forall x | 0 <= x < c.n :: FwPrimeLayer(c, start, j).L[x][r] == c.U[start + j][c.n - 1 - x]
    ensures forall x, y | 0 <= x < c.n && 0 <= y < c.n && y != r :: FwPrimeLayer(c, start, j).L[x][y] == c.L[x][y]
  {
  }

  lemma {:induction false} FwPrimeLayersU(c: Cube, start: nat, k: nat)
    requires Valid(c) && start + k <= c.n
    ensures forall x, y | start <= x < start + k && 0 <= y < c.n :: FwPrimeLayers(c, start, k).U[x][y] == c.R[y][x - start]
    ensures forall x, y | 0 <= x < start && 0 <= y < c.n :: FwPrimeLayers(c, start, k).U[x][y] == c.U[x][y]
    ensures forall x, y | start + k <= x < c.n && 0 <= y < c.n :: FwPrimeLayers(c, start, k).U[x][y] == c.U[x][y]
  {
    hide *;
    FwPrimeLayersUnfold(c, start, k);
    if k > 0 {
      FwPrimeLayersU(c, start, k - 1);
      FwPrimeLayersR(c, start, k - 1);
      FwPrimeLayerU(FwPrimeLayers(c, start, k - 1), start, k - 1, start + (k - 1));
    }
  }

  lemma {:induction false} FwPrimeLayersR(c: Cube, start: nat, k: nat)
    requires Valid(c) && start + k <= c.n
    ensures forall x, y | 0 <= x < c.n && 0 <= y < k :: FwPrimeLayers(c, start, k).R[x][y] == c.D[y][c.n - 1 - x]
    ensures forall x, y | 0 <= x < c.n && k <= y < c.n :: FwPrimeLayers(c, start, k).R[x][y] == c.R[x][y]
  {
    hide *;
    FwPrimeLayersUnfold(c, start, k);
    if k > 0 {
      FwPrimeLayersR(c, start, k - 1);
      FwPrimeLayersD(c, start, k - 1);
      FwPrimeLayerR(FwPrimeLayers(c, start, k - 1), start, k - 1);
    }
  }

  lemma {:induction false} FwPrimeLayersD(c: Cube, start: nat, k: nat)
    requires Valid(c) && start + k <= c.n
    ensures forall x, y | 0 <= x < k && 0 <= y < c.n :: FwPrimeLayers(c, start, k).D[x][y] == c.L[y][c.n - 1 - x]
    ensures forall x, y | k <= x < c.n && 0 <= y < c.n :: FwPrimeLayers(c, start, k).D[x][y] == c.D[x][y]
  {
    hide *;
    FwPrimeLayersUnfold(c, start, k);
    if k > 0 {
      FwPrimeLayersD(c, start, k - 1);
      FwPrimeLayersL(c, start, k - 1);
      FwPrimeLayerD(FwPrimeLayers(c, start, k - 1), start, k - 1);
    }
  }

  lemma {:induction false} FwPrimeLayersL(c: Cube, start: nat, k: nat)
    requires Valid(c) && start + k <= c.n
    ensures forall x, y | 0 <= x < c.n && c.n - k <= y < c.n :: FwPrimeLayers(c, start, k).L[x][y] == c.U[start + (c.n - 1 - y)][c.n - 1 - x]
    ensures forall x, y | 0 <= x < c.n && 0 <= y < c.n - k :: FwPrimeLayers(c, start, k).L[x][y] == c.L[x][y]
  {
    hide *;
    FwPrimeLayersUnfold(c, start, k);
    if k > 0 {
      FwPrimeLayersL(c, start, k - 1);
      FwPrimeLayersU(c, start, k - 1);
      FwPrimeLayerL(FwPrimeLayers(c, start, k - 1), start, k - 1, c.n - 1 - (k - 1));
    }
  }

  /** `BwLayers` is its loop: no iterations, or the first k-1 and then one more. */
  lemma BwLayersUnfold(c: Cube, k: nat)
    requires Valid(c) && k <= c.n
    ensures k == 0 ==> BwLayers(c, k) == c
    ensures k > 0 ==> BwLayers(c, k) == BwLayer(BwLayers(c, k - 1), k - 1)
  {
  }

  lemma BwLayerU(c: Cube, j: nat)
    requires Valid(c) && j < c.n
    ensures forall y | 0 <= y < c.n :: BwLayer(c, j).U[j][y] == c.R[c.n - 1 - y][c.n - 1 - j]
    ensures forall x, y | 0 <= x < c.n && 0 <= y < c.n && x != j :: BwLayer(c, j).U[x][y] == c.U[x][y]
  {
  }

  lemma BwLayerR(c: Cube, j: nat, r: nat)
    requires Valid(c) && j < c.n && r == c.n - 1 - j
    ensures forall x | 0 <= x < c.n :: BwLayer(c, j).R[x][r] == c.D[c.n - 1 - j][x]
    ensures forall x, y | 0 <= x < c.n && 0 <= y < c.n && y != r :: BwLayer(c, j).R[x][y] == c.R[x][y]
  {
  }

  lemma BwLayerD(c: Cube, j: nat, r: nat)
    requires Valid(c) && j < c.n && r == c.n - 1 - j
    ensures forall y | 0 <= y < c.n :: BwLayer(c, j).D[r][y] == c.L[c.n - 1 - y][j]
    ensures forall x, y | 0 <= x < c.n && 0 <= y < c.n && x != r :: BwLayer(c, j).D[x][y] == c.D[x][y]
  {
  }

  lemma BwLayerL(c: Cube, j: nat)
    requires Valid(c) && j < c.n
    ensures forall x | 0 <= x < c.n :: BwLayer(c, j).L[x][j] == c.U[j][x]
    ensures forall x, y | 0 <= x < c.n && 0 <= y < c.n && y != j :: BwLayer(c, j).L[x][y] == c.L[x][y]
  {
  }

  lemma {:induction false} BwLayersU(c: Cube, k: nat)
    requires Valid(c) && k <= c.n
    ensures forall x, y | 0 <= x < k && 0 <= y < c.n :: BwLayers(c, k).U[x][y] == c.R[c.n - 1 - y][c.n - 1 - x]
    ensures forall x, y | k <= x < c.n && 0 <= y < c.n :: BwLayers(c, k).U[x][y] == c.U[x][y]
  {
    hide *;
    BwLayersUnfold(c, k);
    if k > 0 {
      BwLayersU(c, k - 1);
      BwLayersR(c, k - 1);
      BwLayerU(BwLayers(c, k - 1), k - 1);
    }
  }

  lemma {:induction false} BwLayersR(c: Cube, k: nat)
    requires Valid(c) && k <= c.n
    ensures forall x, y | 0 <= x < c.n && c.n - k <= y < c.n :: BwLayers(c, k).R[x][y] == c.D[y][x]
    ensures forall x, y | 0 <= x < c.n && 0 <= y < c.n - k :: BwLayers(c, k).R[x][y] == c.R[x][y]
  {
    hide *;
    BwLayersUnfold(c, k);
    if k > 0 {
      BwLayersR(c, k - 1);
      BwLayersD(c, k - 1);
      BwLayerR(BwLayers(c, k - 1), k - 1, c.n - 1 - (k - 1));
    }
  }

  lemma {:induction false} BwLayersD(c: Cube, k: nat)
    requires Valid(c) && k <= c.n
    ensures forall x, y | c.n - k <= x < c.n && 0 <= y < c.n :: BwLayers(c, k).D[x][y] == c.L[c.n - 1 - y][c.n - 1 - x]
    ensures forall x, y | 0 <= x < c.n - k && 0 <= y < c.n :: BwLayers(c, k).D[x][y] == c.D[x][y]
  {
    hide *;
    BwLayersUnfold(c, k);
    if k > 0 {
      BwLayersD(c, k - 1);
      BwLayersL(c, k - 1);
      BwLayerD(BwLayers(c, k - 1), k - 1, c.n - 1 - (k - 1));
    }
  }

  lemma {:induction false} BwLayersL(c: Cube, k: nat)
    requires Valid(c) && k <= c.n
    ensures forall x, y | 0 <= x < c.n && 0 <= y < k :: BwLayers(c, k).L[x][y] == c.U[y][x]
    ensures forall x, y | 0 <= x < c.n && k <= y < c.n :: BwLayers(c, k).L[x][y] == c.L[x][y]
  {
    hide *;
    BwLayersUnfold(c, k);
    if k > 0 {
      BwLayersL(c, k - 1);
      BwLayersU(c, k - 1);
      BwLayerL(BwLayers(c, k - 1), k - 1);
    }
  }

  /** `BwPrimeLayers` is its loop: no iterations, or the first k-1 and then one more. */
  lemma BwPrimeLayersUnfold(c: Cube, k: nat)
    requires Valid(c) && k <= c.n
    ensures k == 0 ==> BwPrimeLayers(c, k) == c
    ensures k > 0 ==> BwPrimeLayers(c, k) == BwPrimeLayer(BwPrimeLayers(c, k - 1), k - 1)
  {
  }

  lemma BwPrimeLayerU(c: Cube, j: nat)
    requires Valid(c) && j < c.n
    ensures forall y | 0 <= y < c.n :: BwPrimeLayer(c, j).U[j][y] == c.L[y][j]
    ensures forall x, y | 0 <= x < c.n && 0 <= y < c.n && x != j :: BwPrimeLayer(c, j).U[x][y] == c.U[x][y]
  {
  }

  lemma BwPrimeLayerL(c: Cube, j: nat)
    requires Valid(c) && j < c.n
    ensures forall x | 0 <= x < c.n :: BwPrimeLayer(c, j).L[x][j] == c.D[c.n - 1 - j][c.n - 1 - x]
    ensures forall x, y | 0 <= x < c.n && 0 <= y < c.n && y != j :: BwPrimeLayer(c, j).L[x][y] == c.L[x][y]
  {
  }

  lemma BwPrimeLayerD(c: Cube, j: nat, r: nat)
    requires Valid(c) && j < c.n && r == c.n - 1 - j
    ensures forall y | 0 <= y < c.n :: BwPrimeLayer(c, j).D[r][y] == c.R[y][c.n - 1 - j]
    ensures forall x, y | 0 <= x < c.n && 0 <= y < c.n && x != r :: BwPrimeLayer(c, j).D[x][y] == c.D[x][y]
  {
  }

  lemma BwPrimeLayerR(c: Cube, j: nat, r: nat)
    requires Valid(c) && j < c.n && r == c.n - 1 - j
    ensures forall x | 0 <= x < c.n :: BwPrimeLayer(c, j).R[x][r] == c.U[j][c.n - 1 - x]
    ensures forall x, y | 0 <= x < c.n && 0 <= y < c.n && y != r :: BwPrimeLayer(c, j).R[x][y] == c.R[x][y]
  {
  }

  lemma {:induction false} BwPrimeLayersU(c: Cube, k: nat)
    requires Valid(c) && k <= c.n
    ensures forall x, y | 0 <= x < k && 0 <= y < c.n :: BwPrimeLayers(c, k).U[x][y] == c.L[y][x]
    ensures forall x, y | k <= x < c.n && 0 <= y < c.n :: BwPrimeLayers(c, k).U[x][y] == c.U[x][y]
  {
    hide *;
    BwPrimeLayersUnfold(c, k);
    if k > 0 {
      BwPrimeLayersU(c, k - 1);
      BwPrimeLayersL(c, k - 1);
      BwPrimeLayerU(BwPrimeLayers(c, k - 1), k - 1);
    }
  }

  lemma {:induction false} BwPrimeLayersL(c: Cube, k: nat)
    requires Valid(c) && k <= c.n
    ensures forall x, y | 0 <= x < c.n && 0 <= y < k :: BwPrimeLayers(c, k).L[x][y] == c.D[c.n - 1 - y][c.n - 1 - x]
    ensures forall x, y | 0 <= x < c.n && k <= y < c.n :: BwPrimeLayers(c, k).L[x][y] == c.L[x][y]
  {
    hide *;
    BwPrimeLayersUnfold(c, k);
    if k > 0 {
      BwPrimeLayersL(c, k - 1);
      BwPrimeLayersD(c, k - 1);
      BwPrimeLayerL(BwPrimeLayers(c, k - 1), k - 1);
    }
  }

  lemma {:induction false} BwPrimeLayersD(c: Cube, k: nat)
    requires Valid(c) && k <= c.n
    ensures forall x, y | c.n - k <= x < c.n && 0 <= y < c.n :: BwPrimeLayers(c, k).D[x][y] == c.R[y][x]
    ensures forall x, y | 0 <= x < c.n - k && 0 <= y < c.n :: BwPrimeLayers(c, k).D[x][y] == c.D[x][y]
  {
    hide *;
    BwPrimeLayersUnfold(c, k);
    if k > 0 {
      BwPrimeLayersD(c, k - 1);
      BwPrimeLayersR(c, k - 1);
      BwPrimeLayerD(BwPrimeLayers(c, k - 1), k - 1, c.n - 1 - (k - 1));
    }
  }

  lemma {:induction false} BwPrimeLayersR(c: Cube, k: nat)
    requires Valid(c) && k <= c.n
    ensures forall x, y | 0 <= x < c.n && c.n - k <= y < c.n :: BwPrimeLayers(c, k).R[x][y] == c.U[c.n - 1 - y][c.n - 1 - x]
    ensures forall x, y | 0 <= x < c.n && 0 <= y < c.n - k :: BwPrimeLayers(c, k).R[x][y] == c.R[x][y]
  {
    hide *;
    BwPrimeLayersUnfold(c, k);
    if k > 0 {
      BwPrimeLayersR(c, k - 1);
      BwPrimeLayersU(c, k - 1);
      BwPrimeLayerR(BwPrimeLayers(c, k - 1), k - 1, c.n - 1 - (k - 1));
    }
  }
}
