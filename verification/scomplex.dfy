/** Merging the simplicial complexes generated macroelement by macroelement
    into one complex (scomplex_merge of the grid generator).

    The complex stores its per-simplex and per-vertex data as parallel flat
    arrays, node and neighbour lists with stride n+1 and coordinates with
    stride n; here they are one record per simplex and one per vertex. */
module Scomplex {

  /** The per-simplex entries of scomplex: marked, gen, parent, child0,
      childn, flags, vols, and the n+1 nodes and n+1 neighbours. */
  datatype Simplex = Simplex(
    marked: int, gen: int, parent: int, child0: int, childn: int, flags: int, vol: real,
    nodes: seq<int>, nbr: seq<int>)

  /** The per-vertex entries of scomplex: bndry, csys, fval and the n
      coordinates. */
  datatype Vertex = Vertex(bndry: int, csys: int, fval: real, x: seq<real>)

  /** The integer fields of a simplicial complex (scomplex) and its entities:
      n is the dimension, ns the number of simplices, nv the number of
      vertices, cc and bndryCc the connected-component counts. */
  datatype Complex = Complex(
    n: nat, ns: nat, nv: nat, cc: int, bndryCc: int,
    simplices: seq<Simplex>, verts: seq<Vertex>)

  /** ns simplices with n+1 nodes and n+1 neighbours each, nv vertices with
      n coordinates each. */
  predicate WellSized(c: Complex) {
    && |c.simplices| == c.ns
    && (forall s :: 0 <= s < c.ns ==> |c.simplices[s].nodes| == c.n + 1 && |c.simplices[s].nbr| == c.n + 1)
    && |c.verts| == c.nv
    && (forall v :: 0 <= v < c.nv ==> |c.verts[v].x| == c.n)
  }

  /** The first k complexes are well sized and share one dimension. */
  predicate SameShape(comps: seq<Complex>, k: nat)
    requires 1 <= k <= |comps|
  {
    forall i :: 0 <= i < k ==> WellSized(comps[i]) && comps[i].n == comps[0].n
  }

  /** Every entry of row moved up by d. */
  function Shift(row: seq<int>, d: int): (r: seq<int>)
    ensures |r| == |row| && forall j :: 0 <= j < |row| ==> r[j] == row[j] + d
  {
    seq(|row|, j requires 0 <= j < |row| => row[j] + d)
  }

  /** A simplex of a component placed after nv0 vertices and ns0 simplices:
      node numbers move up by nv0, neighbour numbers by ns0, every other
      entry is copied as it is. */
  function Placed(t: Simplex, nv0: int, ns0: int): Simplex {
    t.(nodes := Shift(t.nodes, nv0), nbr := Shift(t.nbr, ns0))
  }

  /** Every simplex of ts placed after nv0 vertices and ns0 simplices. */
  function PlacedAll(ts: seq<Simplex>, nv0: int, ns0: int): (r: seq<Simplex>)
    ensures |r| == |ts| && forall s :: 0 <= s < |ts| ==> r[s] == Placed(ts[s], nv0, ns0)
  {
    seq(|ts|, s requires 0 <= s < |ts| => Placed(ts[s], nv0, ns0))
  }

  /** One round of the merge loop: c's simplices go after sc's ns0 = sc.ns
      simplices and its vertices after sc's nv0 = sc.nv vertices. */
  function Append(sc: Complex, c: Complex): Complex {
    sc.(ns := sc.ns + c.ns, nv := sc.nv + c.nv,
        simplices := sc.simplices + PlacedAll(c.simplices, sc.nv, sc.ns),
        verts := sc.verts + c.verts)
  }

  /** base with components 1 .. k-1 appended in order. */
  function MergeFrom(base: Complex, comps: seq<Complex>, k: nat): Complex
    requires 1 <= k <= |comps|
  {
    if k == 1 then base else Append(MergeFrom(base, comps, k - 1), comps[k - 1])
  }

  /** Simplices of the first k components. */
  function SumNs(comps: seq<Complex>, k: nat): nat
    requires k <= |comps|
  {
    if k == 0 then 0 else SumNs(comps, k - 1) + comps[k - 1].ns
  }

  /** Vertices of the first k components. */
  function SumNv(comps: seq<Complex>, k: nat): nat
    requires k <= |comps|
  {
    if k == 0 then 0 else SumNv(comps, k - 1) + comps[k - 1].nv
  }

  /** The simplices and vertices of a are an unchanged prefix of those of b. */
  predicate Extends(a: Complex, b: Complex) {
    a.simplices <= b.simplices && a.verts <= b.verts
  }

  /** base stands for component 0: same counts and entities, whatever its
      connected-component fields. */
  predicate BaseOf(base: Complex, c: Complex) {
    base == c.(cc := base.cc, bndryCc := base.bndryCc)
  }

  /** scomplex_merge: with a single macroelement nothing changes; otherwise
      the component counts are set and components 1 .. nel-1 are appended to
      component 0 in order, so the totals are the sums of all components and
      component 0's entries stay where they were. The arrays are grown to
      nsall simplices and nvall vertices first, so the sums must fit. */
  method ScomplexMerge(comps: seq<Complex>, nel: nat, nsall: nat, nvall: nat, cc: int, bndryCc: int)
    returns (sc: Complex)
    requires 1 <= nel <= |comps| && SameShape(comps, nel)
    requires nel > 1 ==> SumNs(comps, nel) <= nsall && SumNv(comps, nel) <= nvall
    ensures nel == 1 ==> sc == comps[0]
    ensures nel > 1 ==> sc.cc == cc && sc.bndryCc == bndryCc
    ensures nel > 1 ==> sc == MergeFrom(comps[0].(cc := cc, bndryCc := bndryCc), comps, nel)
    ensures WellSized(sc) && sc.n == comps[0].n
    ensures sc.ns == SumNs(comps, nel) && sc.nv == SumNv(comps, nel)
    ensures Extends(comps[0], sc)
  {
    sc := comps[0];
    if nel == 1 {
      return;
    }
    sc := sc.(cc := cc, bndryCc := bndryCc);
    ghost var base := sc;
    var kel := 1;
    while kel < nel
      invariant 1 <= kel <= nel
      invariant sc == MergeFrom(base, comps, kel)
    {
      sc := Append(sc, comps[kel]);
      kel := kel + 1;
    }
    MergeSizes(base, comps, nel);
    MergeExtends(base, comps, 1, nel);
  }

  /** Appending keeps the complex well sized and adds up the counts. */
  lemma {:induction false} MergeSizes(base: Complex, comps: seq<Complex>, k: nat)
    requires 1 <= k <= |comps| && SameShape(comps, k) && BaseOf(base, comps[0])
    ensures WellSized(MergeFrom(base, comps, k)) && MergeFrom(base, comps, k).n == comps[0].n
    ensures MergeFrom(base, comps, k).ns == SumNs(comps, k) && MergeFrom(base, comps, k).nv == SumNv(comps, k)
    ensures MergeFrom(base, comps, k).cc == base.cc && MergeFrom(base, comps, k).bndryCc == base.bndryCc
  {
    if k > 1 {
      MergeSizes(base, comps, k - 1);
      AppendSized(MergeFrom(base, comps, k - 1), comps[k - 1]);
    }
  }

  /** Appending a well-sized complex of the same dimension keeps the
      result well sized. */
  lemma AppendSized(prev: Complex, c: Complex)
    requires WellSized(prev) && WellSized(c) && c.n == prev.n
    ensures WellSized(Append(prev, c))
  {
    var sc := Append(prev, c);
    forall s | 0 <= s < sc.ns ensures |sc.simplices[s].nodes| == sc.n + 1 && |sc.simplices[s].nbr| == sc.n + 1 {
      if s >= prev.ns {
        assert sc.simplices[s] == Placed(c.simplices[s - prev.ns], prev.nv, prev.ns);
      }
    }
    forall v | 0 <= v < sc.nv ensures |sc.verts[v].x| == sc.n {
      if v >= prev.nv {
        assert sc.verts[v] == c.verts[v - prev.nv];
      }
    }
  }

  /** Later rounds never touch what earlier rounds wrote. */
  lemma {:induction false} MergeExtends(base: Complex, comps: seq<Complex>, k: nat, m: nat)
    requires 1 <= k <= m <= |comps|
    ensures Extends(MergeFrom(base, comps, k), MergeFrom(base, comps, m))
    decreases m - k
  {
    if k < m {
      MergeExtends(base, comps, k, m - 1);
    }
  }

  /** Component c sits in sc from simplex ns0 and vertex nv0 on: its
      simplices with nodes moved up by nv0 and neighbours by ns0, and its
      vertices verbatim. */
  predicate Block(sc: Complex, c: Complex, ns0: nat, nv0: nat)
    requires WellSized(sc) && WellSized(c) && ns0 + c.ns <= sc.ns && nv0 + c.nv <= sc.nv
  {
    sc.simplices[ns0 .. ns0 + c.ns] == PlacedAll(c.simplices, nv0, ns0)
    && sc.verts[nv0 .. nv0 + c.nv] == c.verts
  }

  /** The block of component k (k >= 1) in a merge of m > k components
      starts after the simplices and vertices of components 0 .. k-1. */
  lemma {:induction false} MergeBlock(base: Complex, comps: seq<Complex>, k: nat, m: nat)
    requires 1 <= k < m <= |comps| && SameShape(comps, m) && BaseOf(base, comps[0])
    ensures WellSized(MergeFrom(base, comps, m)) && WellSized(comps[k])
    ensures SumNs(comps, k) + comps[k].ns <= MergeFrom(base, comps, m).ns
    ensures SumNv(comps, k) + comps[k].nv <= MergeFrom(base, comps, m).nv
    ensures Block(MergeFrom(base, comps, m), comps[k], SumNs(comps, k), SumNv(comps, k))
  {
    var prev, d, c := MergeFrom(base, comps, m - 1), comps[m - 1], comps[k];
    assert WellSized(c) && WellSized(d) && d.n == comps[0].n;
    assert SameShape(comps, m - 1);
    MergeSizes(base, comps, m - 1);
    assert d.n == prev.n;
    if m > k + 1 {
      MergeBlock(base, comps, k, m - 1);
    }
    BlockStep(prev, MergeFrom(base, comps, m), d, c, SumNs(comps, k), SumNv(comps, k), m == k + 1);
  }

  /** One round either lays down component c's block (isNew: c is the
      component appended) or keeps an earlier block of c where it was. */
  lemma BlockStep(prev: Complex, sc: Complex, d: Complex, c: Complex, ns0: nat, nv0: nat, isNew: bool)
    requires sc == Append(prev, d) && WellSized(prev) && WellSized(d) && d.n == prev.n && WellSized(c)
    requires isNew ==> c == d && ns0 == prev.ns && nv0 == prev.nv
    requires !isNew ==> ns0 + c.ns <= prev.ns && nv0 + c.nv <= prev.nv && Block(prev, c, ns0, nv0)
    ensures WellSized(sc) && ns0 + c.ns <= sc.ns && nv0 + c.nv <= sc.nv
    ensures Block(sc, c, ns0, nv0)
  {
    AppendSized(prev, d);
    if isNew {
      BlockOfAppend(prev, c);
    } else {
      BlockKeptByAppend(prev, d, c, ns0, nv0);
    }
  }

  /** Right after its own round, a component fills the end of the merge. */
  lemma BlockOfAppend(prev: Complex, c: Complex)
    requires WellSized(prev) && WellSized(c) && WellSized(Append(prev, c))
    ensures Block(Append(prev, c), c, prev.ns, prev.nv)
  {
    var sc := Append(prev, c);
    assert sc.simplices[prev.ns ..] == PlacedAll(c.simplices, prev.nv, prev.ns);
    assert sc.verts[prev.nv ..] == c.verts;
  }

  /** A later round leaves an earlier block where it was. */
  lemma BlockKeptByAppend(prev: Complex, d: Complex, c: Complex, ns0: nat, nv0: nat)
    requires WellSized(prev) && WellSized(c) && WellSized(Append(prev, d))
    requires ns0 + c.ns <= prev.ns && nv0 + c.nv <= prev.nv
    requires Block(prev, c, ns0, nv0)
    ensures Block(Append(prev, d), c, ns0, nv0)
  {
    var sc := Append(prev, d);
    assert sc.simplices[ns0 .. ns0 + c.ns] == prev.simplices[ns0 .. ns0 + c.ns];
    assert sc.verts[nv0 .. nv0 + c.nv] == prev.verts[nv0 .. nv0 + c.nv];
  }

  /** Every node of every simplex is one of the complex's vertices. */
  predicate NodesValid(c: Complex)
    requires WellSized(c)
  {
    forall s, j :: 0 <= s < c.ns && 0 <= j < |c.simplices[s].nodes| ==> 0 <= c.simplices[s].nodes[j] < c.nv
  }

  /** Shifting node numbers by the vertices already merged keeps every node
      a vertex of the merged complex. */
  lemma {:induction false} MergeNodesValid(base: Complex, comps: seq<Complex>, k: nat)
    requires 1 <= k <= |comps| && SameShape(comps, k) && BaseOf(base, comps[0])
    requires forall i :: 0 <= i < k ==> NodesValid(comps[i])
    ensures WellSized(MergeFrom(base, comps, k)) && NodesValid(MergeFrom(base, comps, k))
  {
    MergeSizes(base, comps, k);
    if k > 1 {
      MergeNodesValid(base, comps, k - 1);
      MergeSizes(base, comps, k - 1);
      assert NodesValid(comps[k - 1]);
      AppendNodesValid(MergeFrom(base, comps, k - 1), comps[k - 1]);
    }
  }

  /** One round keeps every node a vertex. */
  lemma AppendNodesValid(prev: Complex, c: Complex)
    requires WellSized(prev) && WellSized(c) && WellSized(Append(prev, c))
    requires NodesValid(prev) && NodesValid(c)
    ensures NodesValid(Append(prev, c))
  {
    var sc := Append(prev, c);
    forall s, j | 0 <= s < sc.ns && 0 <= j < |sc.simplices[s].nodes|
      ensures 0 <= sc.simplices[s].nodes[j] < sc.nv
    {
      if s >= prev.ns {
        var t := c.simplices[s - prev.ns];
        assert sc.simplices[s] == Placed(t, prev.nv, prev.ns);
        assert 0 <= t.nodes[j] < c.nv;
      } else {
        assert sc.simplices[s] == prev.simplices[s];
      }
    }
  }

  /** Neighbour numbers are shifted unconditionally: a negative marker m of
      component k >= 1 is stored as SumNs(k) + m, so -1 becomes the number of
      the last simplex of the components before it. */
  lemma MergeNbrShift(base: Complex, comps: seq<Complex>, k: nat, m: nat, s: nat, j: nat)
    requires 1 <= k < m <= |comps| && SameShape(comps, m) && BaseOf(base, comps[0])
    requires s < comps[k].ns && j < comps[k].n + 1
    ensures SumNs(comps, k) + s < |MergeFrom(base, comps, m).simplices|
    ensures j < |MergeFrom(base, comps, m).simplices[SumNs(comps, k) + s].nbr|
    ensures MergeFrom(base, comps, m).simplices[SumNs(comps, k) + s].nbr[j]
      == comps[k].simplices[s].nbr[j] + SumNs(comps, k)
    ensures comps[k].simplices[s].nbr[j] == -1
      ==> MergeFrom(base, comps, m).simplices[SumNs(comps, k) + s].nbr[j] == SumNs(comps, k) - 1
  {
    MergeBlock(base, comps, k, m);
    BlockSimplex(MergeFrom(base, comps, m), comps[k], SumNs(comps, k), SumNv(comps, k), s);
  }

  /** Inside a block, simplex s of the component appears placed. */
  lemma BlockSimplex(sc: Complex, c: Complex, ns0: nat, nv0: nat, s: nat)
    requires WellSized(sc) && WellSized(c) && ns0 + c.ns <= sc.ns && nv0 + c.nv <= sc.nv
    requires Block(sc, c, ns0, nv0) && s < c.ns
    ensures sc.simplices[ns0 + s] == Placed(c.simplices[s], nv0, ns0)
  {
    assert sc.simplices[ns0 + s] == sc.simplices[ns0 .. ns0 + c.ns][s];
  }
}
