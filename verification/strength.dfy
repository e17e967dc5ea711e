/** Strength of connection: the filtered adjacency graph built by
    construct_strong_couped. Row i keeps, in storage order, its diagonal entry
    and every negative off-diagonal entry a_ij with a_ij^2 >= theta^2 |d_i d_j|,
    where d is the diagonal of A. */
module Strength {
  import opened Csr

  function Abs(x: real): (r: real)
    ensures r >= 0.0 && (r == x || r == -x)
  {
    if x < 0.0 then -x else x
  }

  /** Every column index of r is a valid index into a diagonal of length n. */
  predicate ColsIn(r: seq<Entry>, n: int) {
    forall k :: 0 <= k < |r| ==> 0 <= r[k].col < n
  }

  /** Entry e of row i survives the filter: it is the diagonal, or it is
      negative and its square reaches theta^2 |d_i d_col|. */
  predicate Kept(i: int, e: Entry, diag: seq<real>, theta2: real)
    requires 0 <= i < |diag| && 0 <= e.col < |diag|
  {
    e.col == i || (e.val * e.val >= theta2 * Abs(diag[i] * diag[e.col]) && e.val < 0.0)
  }

  /** The kept entries of row i, in their original order. */
  function FilterRow(i: int, r: seq<Entry>, diag: seq<real>, theta2: real): (f: seq<Entry>)
    requires 0 <= i < |diag| && ColsIn(r, |diag|)
    ensures |f| <= |r| && ColsIn(f, |diag|)
  {
    if |r| == 0 then []
    else
      var last := r[|r| - 1];
      FilterRow(i, r[..|r| - 1], diag, theta2) + (if Kept(i, last, diag, theta2) then [last] else [])
  }

  function FilteredRows(a: Matrix, diag: seq<real>, theta2: real): (rs: seq<seq<Entry>>)
    requires ValidSquare(a) && |diag| == a.rows
    ensures |rs| == a.rows && ValidFromRows(rs, a.cols)
    ensures forall i :: 0 <= i < a.rows ==> rs[i] == FilterRow(i, Row(a, i), diag, theta2)
  {
    seq(a.rows, i requires 0 <= i < a.rows => FilterRow(i, Row(a, i), diag, theta2))
  }

  /** The filtered graph as a whole: same dimensions as A, each row filtered. */
  function StrongGraph(a: Matrix, diag: seq<real>, theta: real): (g: Matrix)
    requires ValidSquare(a) && |diag| == a.rows
    ensures ValidSquare(g) && g.rows == a.rows
    ensures forall i :: 0 <= i < a.rows ==> Row(g, i) == FilterRow(i, Row(a, i), diag, theta * theta)
  {
    var rs := FilteredRows(a, diag, theta * theta);
    FromRowsRows(rs, a.cols);
    FromRows(rs, a.cols)
  }

  /** The inner loop of construct_strong_couped: append row i's kept entries
      to the output, in storage order. */
  method AppendKept(a: Matrix, diag: seq<real>, theta2: real, i: nat, out: seq<Entry>) returns (out': seq<Entry>)
    requires ValidSquare(a) && |diag| == a.rows && i < a.rows
    ensures out' == out + FilterRow(i, Row(a, i), diag, theta2)
  {
    out' := out;
    var j := a.ia[i];
    while j < a.ia[i + 1]
      invariant a.ia[i] <= j <= a.ia[i + 1]
      invariant out' == out + FilterRow(i, a.entries[a.ia[i]..j], diag, theta2)
    {
      var e := a.entries[j];
      ghost var r := a.entries[a.ia[i]..j + 1];
      assert r[..|r| - 1] == a.entries[a.ia[i]..j] && r[|r| - 1] == e;
      if Kept(i, e, diag, theta2) {
        out' := out' + [e];
      }
      j := j + 1;
    }
  }

  /** construct_strong_couped: one sweep over the rows, recording each row's
      start offset and appending the kept entries; the final offset is nnz. */
  method ConstructStrongCoupled(a: Matrix, diag: seq<real>, theta: real) returns (n: Matrix)
    requires ValidSquare(a) && |diag| == a.rows
    ensures n == StrongGraph(a, diag, theta)
    ensures ValidSquare(n) && n.rows == a.rows && n.cols == a.cols
    ensures forall i :: 0 <= i < a.rows ==> Row(n, i) == FilterRow(i, Row(a, i), diag, theta * theta)
    ensures Nnz(n) <= Nnz(a)
  {
    var theta2 := theta * theta;
    ghost var frows := FilteredRows(a, diag, theta2);
    var nia: seq<int> := [];
    var nent: seq<Entry> := [];
    var i := 0;
    while i < a.rows
      invariant 0 <= i <= a.rows
      invariant |nia| == i
      invariant forall k :: 0 <= k < i ==> nia[k] == |Flatten(frows[..k])|
      invariant nent == Flatten(frows[..i])
      invariant |nent| <= a.ia[i]
    {
      FillStep(frows, i, nia, nent);
      nia := nia + [|nent|];
      nent := AppendKept(a, diag, theta2, i, nent);
      i := i + 1;
    }
    assert frows[..a.rows] == frows;
    nia := nia + [|nent|];
    OffsetsOfFill(frows, nia);
    n := Matrix(a.rows, a.cols, nia, nent);
  }

  /** A filtered row holds exactly the kept entries of the original row. */
  lemma {:induction false} FilterRowMembers(i: int, r: seq<Entry>, diag: seq<real>, theta2: real, e: Entry)
    requires 0 <= i < |diag| && ColsIn(r, |diag|)
    ensures e in FilterRow(i, r, diag, theta2) <==> e in r && 0 <= e.col < |diag| && Kept(i, e, diag, theta2)
  {
    if |r| > 0 {
      FilterRowMembers(i, r[..|r| - 1], diag, theta2, e);
      assert r == r[..|r| - 1] + [r[|r| - 1]];
    }
  }

  /** Filtering commutes with concatenation: entries keep their relative order. */
  lemma {:induction false} FilterRowAppend(i: int, r1: seq<Entry>, r2: seq<Entry>, diag: seq<real>, theta2: real)
    requires 0 <= i < |diag| && ColsIn(r1, |diag|) && ColsIn(r2, |diag|)
    ensures ColsIn(r1 + r2, |diag|)
    ensures FilterRow(i, r1 + r2, diag, theta2) == FilterRow(i, r1, diag, theta2) + FilterRow(i, r2, diag, theta2)
  {
    if |r2| == 0 {
      assert r1 + r2 == r1;
    } else {
      var init, last := r2[..|r2| - 1], r2[|r2| - 1];
      FilterRowAppend(i, r1, init, diag, theta2);
      assert (r1 + r2)[..|r1 + r2| - 1] == r1 + init;
      assert (r1 + r2)[|r1 + r2| - 1] == last;
      var t := if Kept(i, last, diag, theta2) then [last] else [];
      assert FilterRow(i, r1 + r2, diag, theta2) == FilterRow(i, r1 + init, diag, theta2) + t;
      assert FilterRow(i, r2, diag, theta2) == FilterRow(i, init, diag, theta2) + t;
    }
  }

  /** Filtering an already filtered row changes nothing. */
  lemma {:induction false} FilterRowIdempotent(i: int, r: seq<Entry>, diag: seq<real>, theta2: real)
    requires 0 <= i < |diag| && ColsIn(r, |diag|)
    ensures FilterRow(i, FilterRow(i, r, diag, theta2), diag, theta2) == FilterRow(i, r, diag, theta2)
  {
    if |r| > 0 {
      var init := r[..|r| - 1];
      var last := r[|r| - 1];
      FilterRowIdempotent(i, init, diag, theta2);
      var tail := if Kept(i, last, diag, theta2) then [last] else [];
      FilterRowAppend(i, FilterRow(i, init, diag, theta2), tail, diag, theta2);
      if Kept(i, last, diag, theta2) {
        assert FilterRow(i, tail, diag, theta2) == FilterRow(i, [], diag, theta2) + [last];
      }
    }
  }

  /** The strength filter is idempotent on whole matrices: running it on its own
      output with the same diagonal and threshold gives the same graph. */
  lemma StrongGraphIdempotent(a: Matrix, diag: seq<real>, theta: real)
    requires ValidSquare(a) && |diag| == a.rows
    ensures ValidSquare(StrongGraph(a, diag, theta))
    ensures StrongGraph(StrongGraph(a, diag, theta), diag, theta) == StrongGraph(a, diag, theta)
  {
    var theta2 := theta * theta;
    var rs := FilteredRows(a, diag, theta2);
    var n := StrongGraph(a, diag, theta);
    var rs2 := FilteredRows(n, diag, theta2);
    forall i | 0 <= i < a.rows ensures rs2[i] == rs[i] {
      RowsCols(a, i);
      assert ColsIn(Row(a, i), |diag|);
      assert Row(n, i) == FilterRow(i, Row(a, i), diag, theta2);
      FilterRowIdempotent(i, Row(a, i), diag, theta2);
    }
    assert rs2 == rs;
    assert StrongGraph(n, diag, theta) == FromRows(rs2, n.cols);
  }

  /** A stored diagonal entry always survives, whatever the threshold. */
  lemma DiagonalKept(a: Matrix, diag: seq<real>, theta: real, i: nat, v: real)
    requires ValidSquare(a) && |diag| == a.rows && i < a.rows
    requires Entry(i, v) in Row(a, i)
    ensures Entry(i, v) in Row(StrongGraph(a, diag, theta), i)
  {
    RowsCols(a, i);
    assert ColsIn(Row(a, i), |diag|);
    FilterRowMembers(i, Row(a, i), diag, theta * theta, Entry(i, v));
  }

  /** Every off-diagonal entry of the filtered graph is strictly negative. */
  lemma OffDiagonalNegative(a: Matrix, diag: seq<real>, theta: real, i: nat, e: Entry)
    requires ValidSquare(a) && |diag| == a.rows && i < a.rows
    requires e in Row(StrongGraph(a, diag, theta), i) && e.col != i
    ensures e.val < 0.0
  {
    RowsCols(a, i);
    assert ColsIn(Row(a, i), |diag|);
    FilterRowMembers(i, Row(a, i), diag, theta * theta, e);
  }
}
