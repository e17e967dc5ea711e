/** The piecewise-constant prolongations built from an aggregation vector by
    form_tentative_p and form_boolean_p. Row i of P has one entry, in column
    lab[i] with weight w[i], when vertex i belongs to an aggregate
    (lab[i] > UNPT), and no entry otherwise. The boolean prolongation uses the
    weight 1 everywhere. */
module Prolongation {
  import opened Csr
  import opened Labels

  /** Row i of the prolongation. */
  function PRow(lab: seq<int>, w: seq<real>, i: nat): (r: seq<Entry>)
    requires i < |lab| <= |w|
  {
    if lab[i] > Unpt then [Entry(lab[i], w[i])] else []
  }

  function PRows(lab: seq<int>, w: seq<real>): (rs: seq<seq<Entry>>)
    requires |lab| <= |w|
    ensures |rs| == |lab|
  {
    seq(|lab|, i requires 0 <= i < |lab| => PRow(lab, w, i))
  }

  /** The prolongation from the numAgg aggregates to the |lab| vertices. */
  function Prolongator(lab: seq<int>, numAgg: nat, w: seq<real>): Matrix
    requires |lab| <= |w|
  {
    FromRows(PRows(lab, w), numAgg)
  }

  /** The all-ones vector of length n (the constant near-kernel vector). */
  function Ones(n: nat): (o: seq<real>)
    ensures |o| == n && forall i :: 0 <= i < n ==> o[i] == 1.0
  {
    seq(n, _ => 1.0)
  }

  /** Number of vertices among the first k that belong to an aggregate: the
      row offset of row k, and for k = |lab| the number of nonzeros. */
  function Coarse(lab: seq<int>, k: nat): (c: nat)
    requires k <= |lab|
    ensures c <= k
  {
    if k == 0 then 0 else Coarse(lab, k - 1) + (if lab[k - 1] > Unpt then 1 else 0)
  }

  lemma {:induction false} FlattenLength(lab: seq<int>, w: seq<real>, k: nat)
    requires |lab| <= |w| && k <= |lab|
    ensures |Flatten(PRows(lab, w)[..k])| == Coarse(lab, k)
  {
    if k > 0 {
      FlattenLength(lab, w, k - 1);
      FlattenStep(PRows(lab, w), k - 1);
    }
  }

  /** The rows are in range whenever the labels are. */
  lemma PRowsValid(lab: seq<int>, numAgg: nat, w: seq<real>)
    requires |lab| <= |w| && LabelsIn(lab, numAgg)
    ensures ValidFromRows(PRows(lab, w), numAgg)
  {
  }

  /** form_tentative_p: a first sweep records the row offsets (one slot per
      aggregated vertex), a second fills column indices and weights, writing
      the same offsets again. */
  method FormTentativeP(lab: seq<int>, numAgg: nat, w: seq<real>) returns (p: Matrix)
    requires |lab| <= |w|
    ensures p == Prolongator(lab, numAgg, w)
    ensures p.rows == |lab| && p.cols == numAgg && Nnz(p) == Coarse(lab, |lab|)
    ensures forall i :: 0 <= i <= |lab| ==> p.ia[i] == Coarse(lab, i)
  {
    var n := |lab|;
    ghost var rs := PRows(lab, w);
    var ia := RowOffsets(lab);
    var entries: seq<Entry> := [];
    var i := 0;
    var j := 0;
    while i < n
      invariant 0 <= i <= n && |ia| == n + 1 && j == Coarse(lab, i)
      invariant forall k :: 0 <= k <= n ==> ia[k] == Coarse(lab, k)
      invariant entries == Flatten(rs[..i])
    {
      ia := ia[i := j];
      FlattenStep(rs, i);
      if lab[i] > Unpt {
        entries := entries + [Entry(lab[i], w[i])];
        j := j + 1;
      }
      i := i + 1;
    }
    assert rs[..n] == rs;
    forall k | 0 <= k <= n ensures ia[k] == Offsets(rs)[k] {
      FlattenLength(lab, w, k);
    }
    p := Matrix(n, numAgg, ia, entries);
  }

  /** The first sweep of form_tentative_p: one slot per aggregated vertex. */
  method RowOffsets(lab: seq<int>) returns (ia: seq<int>)
    ensures |ia| == |lab| + 1 && forall k :: 0 <= k <= |lab| ==> ia[k] == Coarse(lab, k)
  {
    ia := [];
    var i := 0;
    var j := 0;
    while i < |lab|
      invariant 0 <= i <= |lab| && |ia| == i && j == Coarse(lab, i)
      invariant forall k :: 0 <= k < i ==> ia[k] == Coarse(lab, k)
    {
      OffsetsExtend(lab, ia, i);
      ia := ia + [j];
      if lab[i] > Unpt {
        j := j + 1;
      }
      i := i + 1;
    }
    ia := ia + [j];
  }

  lemma OffsetsExtend(lab: seq<int>, ia: seq<int>, i: nat)
    requires i < |lab| && |ia| == i && forall k :: 0 <= k < i ==> ia[k] == Coarse(lab, k)
    ensures forall k :: 0 <= k <= i ==> (ia + [Coarse(lab, i)])[k] == Coarse(lab, k)
  {
  }

  /** form_boolean_p: the tentative prolongation with unit weights. */
  method FormBooleanP(lab: seq<int>, numAgg: nat) returns (p: Matrix)
    ensures p == Prolongator(lab, numAgg, Ones(|lab|))
    ensures p.rows == |lab| && p.cols == numAgg && Nnz(p) == Coarse(lab, |lab|)
  {
    p := FormTentativeP(lab, numAgg, Ones(|lab|));
  }

  /** Row by row: an aggregated vertex has exactly one entry, in its
      aggregate's column with its weight; any other vertex has none. With
      labels in range the storage is valid. */
  lemma ProlongatorRows(lab: seq<int>, numAgg: nat, w: seq<real>)
    requires |lab| <= |w| && LabelsIn(lab, numAgg)
    ensures var p := Prolongator(lab, numAgg, w);
      && Valid(p) && p.rows == |lab| && p.cols == numAgg
      && forall i :: 0 <= i < |lab| ==>
           (lab[i] > Unpt ==> Row(p, i) == [Entry(lab[i], w[i])])
           && (lab[i] <= Unpt ==> Row(p, i) == [])
  {
    PRowsValid(lab, numAgg, w);
    FromRowsRows(PRows(lab, w), numAgg);
  }

  lemma ApplyRow(lab: seq<int>, numAgg: nat, w: seq<real>, x: seq<real>, i: nat)
    requires |lab| <= |w| && LabelsIn(lab, numAgg) && |x| == numAgg && i < |lab|
    ensures Valid(Prolongator(lab, numAgg, w))
    ensures Apply(Prolongator(lab, numAgg, w), x)[i] == (if lab[i] > Unpt then w[i] * x[lab[i]] else 0.0)
  {
    PRowsValid(lab, numAgg, w);
    RowOfFromRows(PRows(lab, w), numAgg, i);
    var p := Prolongator(lab, numAgg, w);
    RowsCols(p, i);
    var r := Row(p, i);
    assert r == PRow(lab, w, i);
    assert Apply(p, x)[i] == Dot(r, x);
    if lab[i] > Unpt {
      assert r[..0] == [];
      assert Dot(r, x) == Dot([], x) + w[i] * x[lab[i]];
    }
  }

  /** The prolongation interpolates piecewise constantly: (P x)_i is w_i times
      the value of i's aggregate, and 0 for a vertex in no aggregate. */
  lemma ProlongatorApply(lab: seq<int>, numAgg: nat, w: seq<real>, x: seq<real>)
    requires |lab| <= |w| && LabelsIn(lab, numAgg) && |x| == numAgg
    ensures Valid(Prolongator(lab, numAgg, w))
    ensures var y := Apply(Prolongator(lab, numAgg, w), x);
      |y| == |lab| && forall i :: 0 <= i < |lab| ==> y[i] == (if lab[i] > Unpt then w[i] * x[lab[i]] else 0.0)
  {
    PRowsValid(lab, numAgg, w);
    FromRowsValid(PRows(lab, w), numAgg);
    forall i | 0 <= i < |lab|
      ensures Apply(Prolongator(lab, numAgg, w), x)[i] == (if lab[i] > Unpt then w[i] * x[lab[i]] else 0.0)
    {
      ApplyRow(lab, numAgg, w, x, i);
    }
  }

  /** The columns of the boolean prolongation count the aggregates: column a
      holds one entry per member of aggregate a, so P^T 1 is the vector of
      aggregate sizes. */
  lemma {:induction false} ColumnCounts(lab: seq<int>, w: seq<real>, k: nat, a: int)
    requires |lab| <= |w| && k <= |lab| && a > Unpt
    ensures multiset(Cols(Flatten(PRows(lab, w)[..k])))[a] == Size(lab[..k], a)
  {
    if k > 0 {
      ColumnCounts(lab, w, k - 1, a);
      ColumnStep(lab, w, k - 1, a);
      SizePrefix(lab, k - 1, a);
    }
  }

  /** Row i of P adds one to the count of column a exactly when i is in
      aggregate a. */
  lemma ColumnStep(lab: seq<int>, w: seq<real>, i: nat, a: int)
    requires |lab| <= |w| && i < |lab| && a > Unpt
    ensures multiset(Cols(Flatten(PRows(lab, w)[..i + 1])))[a]
         == multiset(Cols(Flatten(PRows(lab, w)[..i])))[a] + (if lab[i] == a then 1 else 0)
  {
    var rs := PRows(lab, w);
    FlattenStep(rs, i);
    ColsAppend(Flatten(rs[..i]), rs[i]);
    var row := Cols(rs[i]);
    assert row == if lab[i] > Unpt then [lab[i]] else [];
    assert multiset(row)[a] == if lab[i] == a then 1 else 0;
  }

  lemma AggregateSizes(lab: seq<int>, numAgg: nat, w: seq<real>, a: int)
    requires |lab| <= |w| && a > Unpt
    ensures multiset(Cols(Prolongator(lab, numAgg, w).entries))[a] == Size(lab, a)
  {
    ColumnCounts(lab, w, |lab|, a);
    assert PRows(lab, w)[..|lab|] == PRows(lab, w);
    assert lab[..|lab|] == lab;
  }

  /** The setup driver passes the near-kernel vector it initialised to all
      ones, so the tentative prolongation it forms is the boolean one. */
  lemma TentativeWithOnes(lab: seq<int>, numAgg: nat, m: nat)
    requires |lab| <= m
    ensures Prolongator(lab, numAgg, Ones(m)) == Prolongator(lab, numAgg, Ones(|lab|))
  {
    assert PRows(lab, Ones(m)) == PRows(lab, Ones(|lab|));
  }
}
