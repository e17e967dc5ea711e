/** Compressed-row sparse matrices (the solver's dCSRmat) and the row view used
    to state what the two-pass CSR builders produce.

    The solver's matrices use 0-based row offsets: row i occupies positions
    ia[i] .. ia[i+1]-1 of the column-index array JA and the value array val.
    Here JA and val are kept zipped as one sequence of entries. */
module Csr {

  /** One stored nonzero: its column index (JA[k]) and its value (val[k]). */
  datatype Entry = Entry(col: int, val: real)

  datatype Matrix = Matrix(rows: nat, cols: nat, ia: seq<int>, entries: seq<Entry>)

  /** Well-shaped row offsets: they start at 0, never decrease and end at nnz. */
  predicate Shaped(a: Matrix) {
    && |a.ia| == a.rows + 1
    && a.ia[0] == 0
    && (forall i, j :: 0 <= i <= j <= a.rows ==> a.ia[i] <= a.ia[j])
    && a.ia[a.rows] == |a.entries|
  }

  /** Well-formed CSR storage: well-shaped offsets and every column index in range. */
  predicate Valid(a: Matrix) {
    && Shaped(a)
    && (forall k :: 0 <= k < |a.entries| ==> 0 <= a.entries[k].col < a.cols)
  }

  predicate ValidSquare(a: Matrix) {
    Valid(a) && a.rows == a.cols
  }

  function Nnz(a: Matrix): nat {
    |a.entries|
  }

  /** Number of stored entries of row i (NIA[i+1] - NIA[i]). */
  function RowLen(a: Matrix, i: nat): int
    requires Shaped(a) && i < a.rows
  {
    a.ia[i + 1] - a.ia[i]
  }

  /** The stored entries of row i, in storage order. */
  function Row(a: Matrix, i: nat): (r: seq<Entry>)
    requires Shaped(a) && i < a.rows
    ensures |r| == RowLen(a, i)
  {
    a.entries[a.ia[i]..a.ia[i + 1]]
  }

  /** Position p lies in row i's storage range. */
  predicate InRow(a: Matrix, i: nat, p: int)
    requires Shaped(a) && i < a.rows
  {
    a.ia[i] <= p < a.ia[i + 1]
  }

  /** Concatenation of rows, the JA (and val) array a row-by-row fill produces. */
  function Flatten<T>(rs: seq<seq<T>>): seq<T>
  {
    if |rs| == 0 then [] else Flatten(rs[..|rs| - 1]) + rs[|rs| - 1]
  }

  /** Row offsets of a row-by-row fill: offset k is the length of rows 0..k-1. */
  function Offsets(rs: seq<seq<Entry>>): (o: seq<int>)
    ensures |o| == |rs| + 1
  {
    seq(|rs| + 1, k requires 0 <= k <= |rs| => |Flatten(rs[..k])|)
  }

  /** The CSR matrix whose rows are rs: a row-by-row fill that records each
      row's start offset and appends its entries. */
  function FromRows(rs: seq<seq<Entry>>, cols: nat): Matrix
  {
    Matrix(|rs|, cols, Offsets(rs), Flatten(rs))
  }

  /** The matrix built from in-range rows is valid and has exactly those rows. */
  lemma FromRowsRows(rs: seq<seq<Entry>>, cols: nat)
    requires ValidFromRows(rs, cols)
    ensures Valid(FromRows(rs, cols)) && FromRows(rs, cols).rows == |rs|
    ensures forall i :: 0 <= i < |rs| ==> Row(FromRows(rs, cols), i) == rs[i]
  {
    FromRowsValid(rs, cols);
    forall i | 0 <= i < |rs| ensures Row(FromRows(rs, cols), i) == rs[i] {
      RowOfFromRows(rs, cols, i);
    }
  }

  /** Offsets recorded by a row-by-row fill (the fill length before each row,
      then the final length) are exactly Offsets(rs). */
  lemma OffsetsOfFill(rs: seq<seq<Entry>>, o: seq<int>)
    requires |o| == |rs| + 1
    requires forall k :: 0 <= k < |rs| ==> o[k] == |Flatten(rs[..k])|
    requires o[|rs|] == |Flatten(rs)|
    ensures o == Offsets(rs)
  {
    assert rs[..|rs|] == rs;
  }

  /** One step of a row-by-row fill: recording the fill length as row i's
      offset and appending row i keeps offsets and fill in step with rs. */
  lemma FillStep(rs: seq<seq<Entry>>, i: nat, o: seq<int>, fill: seq<Entry>)
    requires i < |rs| && |o| == i && fill == Flatten(rs[..i])
    requires forall k :: 0 <= k < i ==> o[k] == |Flatten(rs[..k])|
    ensures forall k :: 0 <= k <= i ==> (o + [|fill|])[k] == |Flatten(rs[..k])|
    ensures Flatten(rs[..i + 1]) == fill + rs[i]
  {
    FlattenStep(rs, i);
  }

  /** The rows of a valid matrix. */
  function RowsOf(a: Matrix): (rs: seq<seq<Entry>>)
    requires Valid(a)
    ensures |rs| == a.rows
    ensures forall i :: 0 <= i < a.rows ==> rs[i] == Row(a, i)
  {
    seq(a.rows, i requires 0 <= i < a.rows => Row(a, i))
  }

  lemma {:induction false} FlattenPrefix<T>(rs: seq<seq<T>>, m: nat, n: nat)
    requires m <= n <= |rs|
    ensures |Flatten(rs[..m])| <= |Flatten(rs[..n])|
    ensures Flatten(rs[..n])[..|Flatten(rs[..m])|] == Flatten(rs[..m])
    decreases n - m
  {
    if m < n {
      FlattenPrefix(rs, m, n - 1);
      assert rs[..n][..n - 1] == rs[..n - 1];
      assert Flatten(rs[..n]) == Flatten(rs[..n - 1]) + rs[n - 1];
    }
  }

  lemma FlattenStep<T>(rs: seq<seq<T>>, k: nat)
    requires k < |rs|
    ensures Flatten(rs[..k + 1]) == Flatten(rs[..k]) + rs[k]
  {
    assert rs[..k + 1][..k] == rs[..k];
  }

  /** Row i of the matrix built from rs is exactly rs[i]. */
  lemma RowOfFromRows(rs: seq<seq<Entry>>, cols: nat, i: nat)
    requires ValidFromRows(rs, cols)
    requires i < |rs|
    ensures Valid(FromRows(rs, cols))
    ensures Row(FromRows(rs, cols), i) == rs[i]
  {
    FromRowsValid(rs, cols);
    var a := FromRows(rs, cols);
    FlattenStep(rs, i);
    FlattenPrefix(rs, i + 1, |rs|);
    assert rs[..|rs|] == rs;
    var lo := |Flatten(rs[..i])|;
    var hi := |Flatten(rs[..i + 1])|;
    assert a.ia[i] == lo && a.ia[i + 1] == hi;
    assert Flatten(rs)[..hi] == Flatten(rs[..i]) + rs[i];
    assert Flatten(rs)[lo..hi] == (Flatten(rs)[..hi])[lo..];
  }

  /** Every entry of every row has its column in [0, cols). */
  predicate ValidFromRows(rs: seq<seq<Entry>>, cols: nat) {
    forall i, k :: 0 <= i < |rs| && 0 <= k < |rs[i]| ==> 0 <= rs[i][k].col < cols
  }

  lemma {:induction false} FlattenCols(rs: seq<seq<Entry>>, cols: nat)
    requires ValidFromRows(rs, cols)
    ensures forall k :: 0 <= k < |Flatten(rs)| ==> 0 <= Flatten(rs)[k].col < cols
  {
    if |rs| > 0 {
      var init := rs[..|rs| - 1];
      assert ValidFromRows(init, cols) by {
        forall i, k | 0 <= i < |init| && 0 <= k < |init[i]|
          ensures 0 <= init[i][k].col < cols
        {
          assert init[i] == rs[i];
        }
      }
      FlattenCols(init, cols);
      var f := Flatten(rs);
      assert f == Flatten(init) + rs[|rs| - 1];
      forall k | 0 <= k < |f| ensures 0 <= f[k].col < cols {
        if k >= |Flatten(init)| {
          assert f[k] == rs[|rs| - 1][k - |Flatten(init)|];
        }
      }
    }
  }

  /** Building a matrix from in-range rows gives well-formed CSR storage. */
  lemma FromRowsValid(rs: seq<seq<Entry>>, cols: nat)
    requires ValidFromRows(rs, cols)
    ensures Valid(FromRows(rs, cols))
    ensures Nnz(FromRows(rs, cols)) == |Flatten(rs)|
  {
    var a := FromRows(rs, cols);
    assert rs[..0] == [];
    assert rs[..|rs|] == rs;
    forall i, j | 0 <= i <= j <= a.rows ensures a.ia[i] <= a.ia[j] {
      FlattenPrefix(rs, i, j);
    }
    FlattenCols(rs, cols);
  }

  lemma {:induction false} FlattenRowsOfPrefix(a: Matrix, k: nat)
    requires Valid(a) && k <= a.rows
    ensures Flatten(RowsOf(a)[..k]) == a.entries[..a.ia[k]]
  {
    if k > 0 {
      FlattenRowsOfPrefix(a, k - 1);
      FlattenStep(RowsOf(a), k - 1);
      assert a.ia[k - 1] <= a.ia[k] <= |a.entries|;
      assert a.entries[..a.ia[k]] == a.entries[..a.ia[k - 1]] + a.entries[a.ia[k - 1]..a.ia[k]];
    }
  }

  /** Reading a valid matrix row by row and rebuilding it gives back the same
      storage: the row view and the CSR arrays carry the same information. */
  lemma RowsRoundTrip(a: Matrix)
    requires Valid(a)
    ensures FromRows(RowsOf(a), a.cols) == a
  {
    var rs := RowsOf(a);
    forall k | 0 <= k <= a.rows ensures Offsets(rs)[k] == a.ia[k] {
      FlattenRowsOfPrefix(a, k);
    }
    FlattenRowsOfPrefix(a, a.rows);
    assert rs[..a.rows] == rs;
    assert a.entries[..a.ia[a.rows]] == a.entries;
  }

  /** Column indices of a run of entries (the JA array). */
  function Cols(es: seq<Entry>): (c: seq<int>)
    ensures |c| == |es| && forall k :: 0 <= k < |es| ==> c[k] == es[k].col
  {
    seq(|es|, k requires 0 <= k < |es| => es[k].col)
  }

  lemma ColsAppend(e1: seq<Entry>, e2: seq<Entry>)
    ensures Cols(e1 + e2) == Cols(e1) + Cols(e2)
  {
  }

  /** Every column index of row i of a valid matrix is in range. */
  lemma RowsCols(a: Matrix, i: nat)
    requires Valid(a) && i < a.rows
    ensures forall k :: 0 <= k < RowLen(a, i) ==> 0 <= Row(a, i)[k].col < a.cols
  {
    forall k | 0 <= k < RowLen(a, i) ensures 0 <= Row(a, i)[k].col < a.cols {
      assert a.ia[i] <= a.ia[i + 1] <= |a.entries|;
      assert Row(a, i)[k] == a.entries[a.ia[i] + k];
    }
  }

  /** Sum of val * x[col] over a run of entries. */
  function Dot(r: seq<Entry>, x: seq<real>): real
    requires forall k :: 0 <= k < |r| ==> 0 <= r[k].col < |x|
  {
    if |r| == 0 then 0.0 else Dot(r[..|r| - 1], x) + r[|r| - 1].val * x[r[|r| - 1].col]
  }

  /** The matrix-vector product y = A x. */
  function Apply(a: Matrix, x: seq<real>): (y: seq<real>)
    requires Valid(a) && |x| == a.cols
    ensures |y| == a.rows
  {
    seq(a.rows, i requires 0 <= i < a.rows => (RowsCols(a, i); Dot(Row(a, i), x)))
  }
}
