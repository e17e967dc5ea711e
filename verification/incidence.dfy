/** The mesh's integer incidence maps (iCSRmat): element-to-vertex,
    edge-to-vertex, element-to-DOF and so on.

    Unlike the solver's matrices these maps are 1-based twice over: row i lists
    JA[IA[i]-1] .. JA[IA[i+1]-2] with IA[0] == 1, and the listed vertex or DOF
    numbers themselves start at 1. */
module Incidence {
  import opened Csr

  datatype IMap = IMap(rows: nat, cols: nat, ia: seq<int>, ja: seq<int>)

  /** 1-based offsets: they start at 1, never decrease and end one past |JA|. */
  predicate Shaped(m: IMap) {
    && |m.ia| == m.rows + 1
    && m.ia[0] == 1
    && (forall i, j :: 0 <= i <= j <= m.rows ==> m.ia[i] <= m.ia[j])
    && m.ia[m.rows] == |m.ja| + 1
  }

  /** The entries of row i, in storage order. */
  function RowOf(m: IMap, i: nat): (r: seq<int>)
    requires Shaped(m) && i < m.rows
    ensures |r| == m.ia[i + 1] - m.ia[i]
  {
    m.ja[m.ia[i] - 1 .. m.ia[i + 1] - 1]
  }

  /** All rows of a well-shaped map. */
  function Rows(m: IMap): (rs: seq<seq<int>>)
    requires Shaped(m)
    ensures |rs| == m.rows
  {
    seq(m.rows, i requires 0 <= i < m.rows => RowOf(m, i))
  }

  /** Every listed number lies in [lo, hi]. */
  predicate EntriesIn(m: IMap, lo: int, hi: int) {
    forall k :: 0 <= k < |m.ja| ==> lo <= m.ja[k] <= hi
  }

  /** Copies the entries of one row (get_incidence_row). Offsets are read as
      given: a row whose end offset does not exceed its start offset yields
      nothing, and the entries copied must lie inside JA. */
  method GetIncidenceRow(m: IMap, row: nat) returns (thisRow: seq<int>)
    requires row + 1 < |m.ia|
    requires m.ia[row] < m.ia[row + 1] ==> 1 <= m.ia[row] && m.ia[row + 1] - 1 <= |m.ja|
    ensures |thisRow| == if m.ia[row] < m.ia[row + 1] then m.ia[row + 1] - m.ia[row] else 0
    ensures forall j :: 0 <= j < |thisRow| ==> thisRow[j] == m.ja[m.ia[row] - 1 + j]
    ensures Shaped(m) && row < m.rows ==> thisRow == RowOf(m, row)
  {
    var rowa := m.ia[row] - 1;
    var rowb := m.ia[row + 1] - 1;
    thisRow := [];
    var j := rowa;
    while j < rowb
      invariant rowa <= j
      invariant rowa < rowb ==> 0 <= rowa && j <= rowb <= |m.ja|
      invariant rowb <= rowa ==> j == rowa
      invariant |thisRow| == j - rowa
      invariant forall k :: 0 <= k < |thisRow| ==> thisRow[k] == m.ja[rowa + k]
    {
      thisRow := thisRow + [m.ja[j]];
      j := j + 1;
    }
  }

  /** Rows of a well-shaped map, laid end to end, are exactly JA. */
  lemma {:induction false} RowsPrefix(m: IMap, k: nat)
    requires Shaped(m) && k <= m.rows
    ensures Flatten(Rows(m)[..k]) == m.ja[..m.ia[k] - 1]
  {
    if k > 0 {
      RowsPrefix(m, k - 1);
      FlattenStep(Rows(m), k - 1);
      assert 1 <= m.ia[k - 1] <= m.ia[k] <= m.ia[m.rows];
      assert m.ja[..m.ia[k] - 1] == m.ja[..m.ia[k - 1] - 1] + m.ja[m.ia[k - 1] - 1 .. m.ia[k] - 1];
    }
  }

  /** Reading every row with get_incidence_row covers JA exactly once, in order. */
  lemma RowsCover(m: IMap)
    requires Shaped(m)
    ensures Flatten(Rows(m)) == m.ja
  {
    RowsPrefix(m, m.rows);
    assert Rows(m)[..m.rows] == Rows(m);
    assert m.ja[..|m.ja|] == m.ja;
  }

  /** A map filled row by row from rs: offset k is one past the length of
      rows 0..k-1, and JA is the rows end to end. */
  predicate FilledFrom(rs: seq<seq<int>>, m: IMap) {
    && m.rows == |rs| && |m.ia| == |rs| + 1
    && (forall k :: 0 <= k <= |rs| ==> m.ia[k] == |Flatten(rs[..k])| + 1)
    && m.ja == Flatten(rs)
  }

  lemma FilledShaped(rs: seq<seq<int>>, m: IMap)
    requires FilledFrom(rs, m)
    ensures Shaped(m)
  {
    assert rs[..0] == [];
    assert rs[..|rs|] == rs;
    forall i, j | 0 <= i <= j <= m.rows ensures m.ia[i] <= m.ia[j] {
      FlattenPrefix(rs, i, j);
    }
  }

  lemma FilledRow(rs: seq<seq<int>>, m: IMap, i: nat)
    requires FilledFrom(rs, m) && i < |rs|
    ensures Shaped(m) && RowOf(m, i) == rs[i]
  {
    FilledShaped(rs, m);
    assert rs[..|rs|] == rs;
    FlattenStep(rs, i);
    FlattenPrefix(rs, i + 1, |rs|);
    var lo := |Flatten(rs[..i])|;
    var hi := |Flatten(rs[..i + 1])|;
    assert m.ja[..hi] == Flatten(rs[..i]) + rs[i];
    assert m.ja[lo..hi] == (m.ja[..hi])[lo..];
  }

  /** The rows of a map filled from rs are exactly rs. */
  lemma FilledRows(rs: seq<seq<int>>, m: IMap)
    requires FilledFrom(rs, m)
    ensures Shaped(m)
    ensures forall i :: 0 <= i < |rs| ==> RowOf(m, i) == rs[i]
  {
    FilledShaped(rs, m);
    forall i | 0 <= i < |rs| ensures RowOf(m, i) == rs[i] {
      FilledRow(rs, m, i);
    }
  }

  /** Every row holds exactly d entries: IA[i] == d*i + 1. */
  predicate Uniform(m: IMap, d: nat) {
    && |m.ia| == m.rows + 1
    && (forall i :: 0 <= i <= m.rows ==> m.ia[i] == d * i + 1)
    && |m.ja| == d * m.rows
  }

  lemma MulMono(d: nat, i: nat, j: nat)
    requires i <= j
    ensures d * i <= d * j
  {
  }

  lemma UniformShaped(m: IMap, d: nat)
    requires Uniform(m, d)
    ensures Shaped(m)
    ensures forall i :: 0 <= i < m.rows ==> |RowOf(m, i)| == d
  {
    forall i, j | 0 <= i <= j <= m.rows ensures m.ia[i] <= m.ia[j] {
      MulMono(d, i, j);
    }
  }

  /** Rows of equal length d end to end: the first k of them fill d*k places. */
  lemma {:induction false} FlattenUniform(rs: seq<seq<int>>, d: nat, k: nat)
    requires forall i :: 0 <= i < |rs| ==> |rs[i]| == d
    requires k <= |rs|
    ensures |Flatten(rs[..k])| == d * k
  {
    if k > 0 {
      FlattenUniform(rs, d, k - 1);
      FlattenStep(rs, k - 1);
    }
  }

  /** m is src with one new DOF appended to every row: row i gains nv + 1 + i,
      the DOF numbered after all nv vertex DOFs. This is how the P2 space
      extends the element-to-vertex map in 1D (the element midpoint) and the
      edge-to-vertex map (the edge midpoint). */
  predicate AppendsOwnDof(src: IMap, m: IMap, nv: nat) {
    && Shaped(src) && Shaped(m)
    && m.rows == src.rows
    && forall i :: 0 <= i < m.rows ==> RowOf(m, i) == RowOf(src, i) + [nv + 1 + i]
  }

  /** Rows of the extended map, as a fill would produce them. */
  function OwnDofRows(src: IMap, nv: nat): (rs: seq<seq<int>>)
    requires Shaped(src)
    ensures |rs| == src.rows
    ensures forall i :: 0 <= i < src.rows ==> rs[i] == RowOf(src, i) + [nv + 1 + i]
  {
    seq(src.rows, i requires 0 <= i < src.rows => RowOf(src, i) + [nv + 1 + i])
  }

  /** The P2 element-to-DOF map in 1D (el_n): IA[i] = dof_per_elm*i + 1 with
      dof_per_elm = v_per_elm + 1, and element i's row copies its vertices
      from el_v and then lists its midpoint DOF nv+i+1.
      The element-to-vertex map must have v_per_elm vertices per element,
      as a mesh does: the offsets are computed, not read. */
  method P2ElementMap1D(elV: IMap, nv: nat, vPerElm: nat) returns (elN: IMap)
    requires Uniform(elV, vPerElm)
    ensures elN.rows == elV.rows && elN.cols == nv + elV.rows
    ensures Uniform(elN, vPerElm + 1)
    ensures AppendsOwnDof(elV, elN, nv)
  {
    UniformShaped(elV, vPerElm);
    var dofPerElm := vPerElm + 1;
    var nelm := elV.rows;
    var ia := seq(nelm + 1, i requires 0 <= i <= nelm => dofPerElm * i + 1);
    var ja := ElementRows(elV, nv);
    elN := IMap(nelm, nv + nelm, ia, ja);
    OwnDofFill(elV, nv, vPerElm, elN);
  }

  /** The JA array of el_n: each element's vertices followed by its midpoint
      DOF. The routine copies el_v's JA from IA[i]-1 up to IA[i+1]-1 in a loop
      of its own; that is the stretch GetIncidenceRow returns, so the model
      reads it with GetIncidenceRow. */
  method ElementRows(elV: IMap, nv: nat) returns (ja: seq<int>)
    requires Shaped(elV)
    ensures ja == Flatten(OwnDofRows(elV, nv))
  {
    ghost var rs := OwnDofRows(elV, nv);
    ja := [];
    var i := 0;
    while i < elV.rows
      invariant 0 <= i <= elV.rows
      invariant ja == Flatten(rs[..i])
    {
      var row := GetIncidenceRow(elV, i);
      ElementStep(elV, nv, i, ja, row);
      ja := ja + row + [nv + i + 1];
      i := i + 1;
    }
    assert rs[..elV.rows] == rs;
  }

  lemma ElementStep(elV: IMap, nv: nat, i: nat, ja: seq<int>, row: seq<int>)
    requires Shaped(elV) && i < elV.rows
    requires ja == Flatten(OwnDofRows(elV, nv)[..i]) && row == RowOf(elV, i)
    ensures ja + row + [nv + i + 1] == Flatten(OwnDofRows(elV, nv)[..i + 1])
  {
    FlattenStep(OwnDofRows(elV, nv), i);
  }

  /** The offsets d*i + 1 and the concatenated extended rows form the
      extended map. */
  lemma OwnDofFill(src: IMap, nv: nat, d: nat, m: IMap)
    requires Uniform(src, d)
    requires m.rows == src.rows && m.cols == nv + src.rows
    requires |m.ia| == m.rows + 1 && forall i :: 0 <= i <= m.rows ==> m.ia[i] == (d + 1) * i + 1
    requires Shaped(src) && m.ja == Flatten(OwnDofRows(src, nv))
    ensures Uniform(m, d + 1)
    ensures AppendsOwnDof(src, m, nv)
  {
    var rs := OwnDofRows(src, nv);
    OwnDofFilled(src, nv, d, m);
    FilledRows(rs, m);
  }

  lemma OwnDofFilled(src: IMap, nv: nat, d: nat, m: IMap)
    requires Uniform(src, d)
    requires m.rows == src.rows
    requires |m.ia| == m.rows + 1 && forall i :: 0 <= i <= m.rows ==> m.ia[i] == (d + 1) * i + 1
    requires Shaped(src) && m.ja == Flatten(OwnDofRows(src, nv))
    ensures Uniform(m, d + 1)
    ensures FilledFrom(OwnDofRows(src, nv), m)
  {
    UniformShaped(src, d);
    var rs := OwnDofRows(src, nv);
    assert forall i :: 0 <= i < |rs| ==> |rs[i]| == d + 1;
    UniformFilled(rs, d + 1, m);
  }

  /** Offsets e*k + 1 over rows of e entries each are the offsets of a fill. */
  lemma UniformFilled(rs: seq<seq<int>>, e: nat, m: IMap)
    requires forall i :: 0 <= i < |rs| ==> |rs[i]| == e
    requires m.rows == |rs| && |m.ia| == |rs| + 1 && forall i :: 0 <= i <= m.rows ==> m.ia[i] == e * i + 1
    requires m.ja == Flatten(rs)
    ensures Uniform(m, e)
    ensures FilledFrom(rs, m)
  {
    forall k | 0 <= k <= m.rows ensures m.ia[k] == |Flatten(rs[..k])| + 1 {
      FlattenUniform(rs, e, k);
    }
    FlattenUniform(rs, e, m.rows);
    assert rs[..m.rows] == rs;
  }

  /** The P2 edge-to-DOF map (ed_n, dimension above 1): edge i, whose vertices
      start at ed = ed_v.IA[i]-1, gets offset ed+1+i and the row
      [n1+1, n2+1, nv+1+i]; the closing offset is 3*nedge+1. With two vertices
      per edge the three writes land at the current end of JA. */
  method P2EdgeMap(edV: IMap, nv: nat) returns (edN: IMap)
    requires Uniform(edV, 2)
    ensures edN.rows == edV.rows && edN.cols == nv + edV.rows
    ensures Uniform(edN, 3)
    ensures AppendsOwnDof(edV, edN, nv)
  {
    UniformShaped(edV, 2);
    var nedge := edV.rows;
    var ia, ja := EdgeRows(edV, nv);
    StrideExtend(ia, nedge);
    ia := ia + [3 * nedge + 1];
    edN := IMap(nedge, nv + nedge, ia, ja);
    OwnDofFill(edV, nv, 2, edN);
  }

  /** The loop of the edge-to-DOF map: the offsets of every edge and the
      concatenated rows. */
  method EdgeRows(edV: IMap, nv: nat) returns (ia: seq<int>, ja: seq<int>)
    requires Uniform(edV, 2) && Shaped(edV)
    ensures |ia| == edV.rows && forall k :: 0 <= k < edV.rows ==> ia[k] == 3 * k + 1
    ensures ja == Flatten(OwnDofRows(edV, nv))
  {
    var nedge := edV.rows;
    ia := [];
    ja := [];
    var s := nv + 1;
    var i := 0;
    while i < nedge
      invariant 0 <= i <= nedge && s == nv + 1 + i
      invariant EdgeFill(edV, nv, i, ia, ja)
    {
      ia, ja := EdgeRow(edV, nv, i, ia, ja, s);
      s := s + 1;
      i := i + 1;
    }
    assert OwnDofRows(edV, nv)[..nedge] == OwnDofRows(edV, nv);
  }

  /** The edge loop after i edges: offsets 3*k+1 and the rows of the first
      i edges. */
  predicate EdgeFill(edV: IMap, nv: nat, i: nat, ia: seq<int>, ja: seq<int>)
    requires Shaped(edV) && i <= edV.rows
  {
    && |ia| == i && (forall k :: 0 <= k < i ==> ia[k] == 3 * k + 1)
    && ja == Flatten(OwnDofRows(edV, nv)[..i]) && |ja| == 3 * i
  }

  /** One pass of the edge loop: edge i's offset and its two vertices
      followed by its new DOF s. */
  method EdgeRow(edV: IMap, nv: nat, i: nat, ia: seq<int>, ja: seq<int>, s: int) returns (ia': seq<int>, ja': seq<int>)
    requires Uniform(edV, 2) && Shaped(edV) && i < edV.rows && s == nv + 1 + i
    requires EdgeFill(edV, nv, i, ia, ja)
    ensures EdgeFill(edV, nv, i + 1, ia', ja')
  {
    assert edV.ia[i] == 2 * i + 1 && edV.ia[i + 1] == 2 * i + 3;
    EdgeStep(edV, nv, i, ja);
    var ed := edV.ia[i] - 1;
    StrideExtend(ia, i);
    ia' := ia + [ed + 1 + i];
    var n1 := edV.ja[ed] - 1;
    var n2 := edV.ja[ed + 1] - 1;
    ja' := ja + [n1 + 1, n2 + 1, s];
  }

  lemma StrideExtend(ia: seq<int>, i: nat)
    requires |ia| == i && forall k :: 0 <= k < i ==> ia[k] == 3 * k + 1
    ensures forall k :: 0 <= k <= i ==> (ia + [3 * i + 1])[k] == 3 * k + 1
  {
  }

  /** Step i of the edge loop: edge i's two vertices sit at ed = 2*i, so its
      offset ed+1+i is 3*i+1 and its three entries extend the fill by row i. */
  lemma EdgeStep(edV: IMap, nv: nat, i: nat, ja: seq<int>)
    requires Shaped(edV) && i < edV.rows && edV.ia[i] == 2 * i + 1 && edV.ia[i + 1] == 2 * i + 3
    requires ja == Flatten(OwnDofRows(edV, nv)[..i])
    ensures ja + [edV.ja[edV.ia[i] - 1], edV.ja[edV.ia[i]], nv + 1 + i] == Flatten(OwnDofRows(edV, nv)[..i + 1])
  {
    FlattenStep(OwnDofRows(edV, nv), i);
    assert RowOf(edV, i) == [edV.ja[2 * i], edV.ja[2 * i + 1]];
  }

  /** In an extended map whose original entries are vertex numbers 1..nv, the
      only entry of row i above nv is its last one, and it is nv+1+i; so each
      new DOF belongs to exactly one row, and all entries are DOF numbers
      1..nv+rows. */
  lemma OwnDofOwned(src: IMap, m: IMap, nv: nat, i: nat)
    requires AppendsOwnDof(src, m, nv) && EntriesIn(src, 1, nv)
    requires i < m.rows
    ensures forall p :: 0 <= p < |RowOf(m, i)| ==> (RowOf(m, i)[p] > nv <==> p == |RowOf(m, i)| - 1)
    ensures RowOf(m, i)[|RowOf(m, i)| - 1] == nv + 1 + i
    ensures forall p :: 0 <= p < |RowOf(m, i)| ==> 1 <= RowOf(m, i)[p] <= nv + m.rows
  {
    var r := RowOf(src, i);
    assert 1 <= src.ia[i] <= src.ia[i + 1] <= src.ia[src.rows];
    forall p | 0 <= p < |r| ensures 1 <= r[p] <= nv {
      assert r[p] == src.ja[src.ia[i] - 1 + p];
    }
  }

  /** A new DOF appears in no row but its own. */
  lemma OwnDofUnique(src: IMap, m: IMap, nv: nat, i: nat, i': nat, p: nat)
    requires AppendsOwnDof(src, m, nv) && EntriesIn(src, 1, nv)
    requires i < m.rows && i' < m.rows && p < |RowOf(m, i')|
    requires RowOf(m, i')[p] == nv + 1 + i
    ensures i' == i && p == |RowOf(m, i')| - 1
  {
    OwnDofOwned(src, m, nv, i');
  }
}
