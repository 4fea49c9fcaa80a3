/** trim_zeros_2d: drop every all-zero row, then (through a transpose) every
    all-zero column. Boolean-mask indexing removes interior zero lines as well as
    margins. */
module TrimZeros {
  import opened Images

  predicate ZeroRow(r: seq<int>)
  {
    forall j :: 0 <= j < |r| ==> r[j] == 0
  }

  /** numpy.nonzero of a boolean mask: the positions holding true, ascending. */
  function TrueIndices(mask: seq<bool>): (idx: seq<nat>)
    ensures forall a :: 0 <= a < |idx| ==> idx[a] < |mask| && mask[idx[a]]
    ensures forall a, b :: 0 <= a < b < |idx| ==> idx[a] < idx[b]
    ensures forall k :: 0 <= k < |mask| && mask[k] ==> k in idx
  {
    if |mask| == 0 then []
    else TrueIndices(mask[..|mask| - 1]) + (if mask[|mask| - 1] then [|mask| - 1] else [])
  }

  function Select<T>(s: seq<T>, idx: seq<nat>): (r: seq<T>)
    requires forall a :: 0 <= a < |idx| ==> idx[a] < |s|
    ensures |r| == |idx| && forall a :: 0 <= a < |idx| ==> r[a] == s[idx[a]]
  {
    seq(|idx|, a requires 0 <= a < |idx| => s[idx[a]])
  }

  function RowMask(m: Plane): seq<bool>
  {
    seq(|m|, i requires 0 <= i < |m| => !ZeroRow(m[i]))
  }

  /** `m[~np.all(m == 0, axis=1)]`. */
  function DropZeroRows(m: Plane): (r: Plane)
    ensures forall a :: 0 <= a < |r| ==> r[a] in m
  {
    Select(m, TrueIndices(RowMask(m)))
  }

  /** `m.T`; a plane without rows transposes to a plane without rows. */
  function Transpose(m: Plane): (t: Plane)
    requires Rectangular(m)
    ensures |m| > 0 ==> IsMatrix(t, Width(m), |m|)
    ensures |m| == 0 ==> t == []
  {
    if |m| == 0 then []
    else seq(|m[0]|, j requires 0 <= j < |m[0]| => seq(|m|, i requires 0 <= i < |m| => m[i][j]))
  }

  lemma DropZeroRowsRectangular(m: Plane)
    requires Rectangular(m)
    ensures Rectangular(DropZeroRows(m))
    ensures |DropZeroRows(m)| > 0 ==> Width(DropZeroRows(m)) == Width(m)
  {
  }

  /** trim_zeros_2d as the source writes it. */
  function TrimZeros2D(m: Plane): Plane
    requires Rectangular(m)
  {
    var r := DropZeroRows(m);
    DropZeroRowsRectangular(m);
    var t := Transpose(r);
    DropZeroRowsRectangular(t);
    Transpose(DropZeroRows(t))
  }

  // ---------------------------------------------------------------------------
  // What trim_zeros_2d keeps, stated on the input

  predicate ColumnNonzero(m: Plane, j: nat)
    requires Rectangular(m) && j < Width(m)
  {
    exists i :: 0 <= i < |m| && m[i][j] != 0
  }

  /** Indices of the rows holding a nonzero value, ascending. */
  function NonzeroRows(m: Plane): seq<nat>
  {
    TrueIndices(RowMask(m))
  }

  function ColumnMask(m: Plane): seq<bool>
    requires Rectangular(m)
  {
    seq(Width(m), j requires 0 <= j < Width(m) => ColumnNonzero(m, j))
  }

  /** Indices of the columns holding a nonzero value, ascending. */
  function NonzeroCols(m: Plane): seq<nat>
    requires Rectangular(m)
  {
    TrueIndices(ColumnMask(m))
  }

  /** The sub-matrix of m on the given rows and columns. */
  function SubMatrix(m: Plane, rows: seq<nat>, cols: seq<nat>): (r: Plane)
    requires Rectangular(m)
    requires forall a :: 0 <= a < |rows| ==> rows[a] < |m|
    requires forall b :: 0 <= b < |cols| ==> cols[b] < Width(m)
    ensures IsMatrix(r, |rows|, |cols|)
  {
    seq(|rows|, a requires 0 <= a < |rows| =>
      seq(|cols|, b requires 0 <= b < |cols| => m[rows[a]][cols[b]]))
  }

  /** A nonzero row of a rectangular plane meets some nonzero column. */
  lemma NonzeroRowMeetsColumn(m: Plane, i: nat) returns (j: nat)
    requires Rectangular(m) && i < |m| && !ZeroRow(m[i])
    ensures j < Width(m) && m[i][j] != 0 && j in NonzeroCols(m)
  {
    var k :| 0 <= k < |m[i]| && m[i][k] != 0;
    j := k;
    assert ColumnMask(m)[j];
  }

  /** The row mask of the transposed kept rows is the column mask of the input. */
  lemma KeptRowsColumnMask(m: Plane)
    requires Rectangular(m) && |NonzeroRows(m)| > 0
    ensures Rectangular(DropZeroRows(m))
    ensures RowMask(Transpose(DropZeroRows(m))) == ColumnMask(m)
  {
    var rk := NonzeroRows(m);
    var r := DropZeroRows(m);
    DropZeroRowsRectangular(m);
    var t := Transpose(r);
    var W := Width(m);
    assert IsMatrix(t, W, |rk|);
    forall j | 0 <= j < W ensures !ZeroRow(t[j]) <==> ColumnNonzero(m, j) {
      if !ZeroRow(t[j]) {
        var a :| 0 <= a < |t[j]| && t[j][a] != 0;
        assert t[j][a] == m[rk[a]][j];
      }
      if ColumnNonzero(m, j) {
        var i :| 0 <= i < |m| && m[i][j] != 0;
        assert RowMask(m)[i];
        var a :| 0 <= a < |rk| && rk[a] == i;
        assert t[j][a] == m[i][j];
      }
    }
  }

  /** The result of trim_zeros_2d is the input restricted to its nonzero rows and
      its nonzero columns, both in their original order. */
  lemma TrimZerosIsSubMatrix(m: Plane)
    requires Rectangular(m)
    ensures TrimZeros2D(m) == SubMatrix(m, NonzeroRows(m), NonzeroCols(m))
  {
    var rk, ck := NonzeroRows(m), NonzeroCols(m);
    var r := DropZeroRows(m);
    DropZeroRowsRectangular(m);
    var t := Transpose(r);
    DropZeroRowsRectangular(t);
    assert TrimZeros2D(m) == Transpose(DropZeroRows(t));
    if |rk| == 0 {
      assert r == [];
    } else {
      KeptRowsColumnMask(m);
      KeptColumnsTranspose(m);
    }
  }

  lemma KeptColumnsTranspose(m: Plane)
    requires Rectangular(m) && |NonzeroRows(m)| > 0
    requires Rectangular(DropZeroRows(m))
    requires RowMask(Transpose(DropZeroRows(m))) == ColumnMask(m)
    ensures Rectangular(DropZeroRows(Transpose(DropZeroRows(m))))
    ensures Transpose(DropZeroRows(Transpose(DropZeroRows(m)))) == SubMatrix(m, NonzeroRows(m), NonzeroCols(m))
  {
    var rk, ck := NonzeroRows(m), NonzeroCols(m);
    var t := Transpose(DropZeroRows(m));
    DropZeroRowsRectangular(t);
    var c := DropZeroRows(t);
    assert c == Select(t, ck);
    var j0 := NonzeroRowMeetsColumn(m, rk[0]);
    var out := Transpose(c);
    assert IsMatrix(out, |rk|, |ck|);
    var sub := SubMatrix(m, rk, ck);
    forall a | 0 <= a < |rk| ensures out[a] == sub[a] {
      forall b | 0 <= b < |ck| ensures out[a][b] == sub[a][b] {
        assert out[a][b] == c[b][a] == t[ck[b]][a];
      }
    }
  }

  predicate NoZeroRow(m: Plane)
  {
    forall i :: 0 <= i < |m| ==> !ZeroRow(m[i])
  }

  predicate NoZeroColumn(m: Plane)
    requires Rectangular(m)
  {
    forall j :: 0 <= j < Width(m) ==> ColumnNonzero(m, j)
  }

  /** After trimming, no row and no column is entirely zero. */
  lemma TrimZerosLeavesNoZeroLine(m: Plane)
    requires Rectangular(m)
    ensures Rectangular(TrimZeros2D(m))
    ensures NoZeroRow(TrimZeros2D(m)) && NoZeroColumn(TrimZeros2D(m))
  {
    TrimZerosIsSubMatrix(m);
    KeptSubMatrixNoZeroRow(m);
    KeptSubMatrixNoZeroColumn(m);
  }

  lemma KeptSubMatrixNoZeroRow(m: Plane)
    requires Rectangular(m)
    ensures NoZeroRow(SubMatrix(m, NonzeroRows(m), NonzeroCols(m)))
  {
    var rk, ck := NonzeroRows(m), NonzeroCols(m);
    var out := SubMatrix(m, rk, ck);
    forall a | 0 <= a < |rk| ensures !ZeroRow(out[a]) {
      var j := NonzeroRowMeetsColumn(m, rk[a]);
      var b :| 0 <= b < |ck| && ck[b] == j;
      assert out[a][b] != 0;
    }
  }

  lemma KeptSubMatrixNoZeroColumn(m: Plane)
    requires Rectangular(m)
    ensures Rectangular(SubMatrix(m, NonzeroRows(m), NonzeroCols(m)))
    ensures NoZeroColumn(SubMatrix(m, NonzeroRows(m), NonzeroCols(m)))
  {
    var rk, ck := NonzeroRows(m), NonzeroCols(m);
    var out := SubMatrix(m, rk, ck);
    assert |rk| > 0 ==> Width(out) == |ck|;
    forall b | 0 <= b < Width(out) ensures ColumnNonzero(out, b) {
      var i :| 0 <= i < |m| && m[i][ck[b]] != 0;
      assert RowMask(m)[i];
      var a :| 0 <= a < |rk| && rk[a] == i;
      assert out[a][b] != 0;
    }
  }

  /** Every nonzero pixel of the input survives trimming, at the position given by
      the ranks of its row and its column among the kept ones. */
  lemma TrimZerosKeepsNonzeroPixels(m: Plane, i: nat, j: nat)
    requires Rectangular(m) && i < |m| && j < Width(m) && m[i][j] != 0
    ensures IsMatrix(TrimZeros2D(m), |NonzeroRows(m)|, |NonzeroCols(m)|)
    ensures exists a, b :: (0 <= a < |NonzeroRows(m)| && 0 <= b < |NonzeroCols(m)| &&
      NonzeroRows(m)[a] == i && NonzeroCols(m)[b] == j && TrimZeros2D(m)[a][b] == m[i][j])
  {
    TrimZerosIsSubMatrix(m);
    var rk, ck := NonzeroRows(m), NonzeroCols(m);
    assert RowMask(m)[i];
    var a :| 0 <= a < |rk| && rk[a] == i;
    assert ColumnMask(m)[j];
    var b :| 0 <= b < |ck| && ck[b] == j;
    assert TrimZeros2D(m)[a][b] == m[i][j];
  }

  /** An image that is zero everywhere trims to an empty array. */
  lemma TrimZerosOfZeroImage(m: Plane)
    requires Rectangular(m)
    requires forall i, j :: 0 <= i < |m| && 0 <= j < |m[i]| ==> m[i][j] == 0
    ensures TrimZeros2D(m) == []
  {
    TrimZerosIsSubMatrix(m);
    TrueIndicesAllFalse(RowMask(m));
  }

  lemma {:induction false} TrueIndicesAllFalse(mask: seq<bool>)
    requires forall k :: 0 <= k < |mask| ==> !mask[k]
    ensures TrueIndices(mask) == []
  {
    if |mask| > 0 {
      TrueIndicesAllFalse(mask[..|mask| - 1]);
    }
  }

  /** 0, 1, ..., n - 1 */
  function Iota(n: nat): (r: seq<nat>)
    ensures |r| == n && forall k :: 0 <= k < n ==> r[k] == k
  {
    if n == 0 then [] else Iota(n - 1) + [n - 1]
  }

  lemma {:induction false} TrueIndicesAllTrue(mask: seq<bool>)
    requires forall k :: 0 <= k < |mask| ==> mask[k]
    ensures TrueIndices(mask) == Iota(|mask|)
  {
    if |mask| > 0 {
      TrueIndicesAllTrue(mask[..|mask| - 1]);
    }
  }

  /** Trimming an image that has already been trimmed changes nothing. */
  lemma TrimZerosIdempotent(m: Plane)
    requires Rectangular(m)
    ensures Rectangular(TrimZeros2D(m))
    ensures TrimZeros2D(TrimZeros2D(m)) == TrimZeros2D(m)
  {
    TrimZerosLeavesNoZeroLine(m);
    TrimZerosOfTrimmed(TrimZeros2D(m));
  }

  /** A plane with no all-zero row and no all-zero column is left as it is. */
  lemma TrimZerosOfTrimmed(m: Plane)
    requires Rectangular(m) && NoZeroRow(m) && NoZeroColumn(m)
    ensures TrimZeros2D(m) == m
  {
    TrimZerosIsSubMatrix(m);
    SubMatrixOfAll(m);
  }

  lemma SubMatrixOfAll(m: Plane)
    requires Rectangular(m) && NoZeroRow(m) && NoZeroColumn(m)
    ensures SubMatrix(m, NonzeroRows(m), NonzeroCols(m)) == m
  {
    assert forall k :: 0 <= k < |m| ==> RowMask(m)[k];
    TrueIndicesAllTrue(RowMask(m));
    assert forall j :: 0 <= j < Width(m) ==> ColumnMask(m)[j];
    TrueIndicesAllTrue(ColumnMask(m));
    SubMatrixIota(m);
  }

  lemma SubMatrixIota(m: Plane)
    requires Rectangular(m)
    ensures SubMatrix(m, Iota(|m|), Iota(Width(m))) == m
  {
    var all := SubMatrix(m, Iota(|m|), Iota(Width(m)));
    forall a | 0 <= a < |m| ensures all[a] == m[a] {
      assert |all[a]| == |m[a]|;
    }
  }
}
