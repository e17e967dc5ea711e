/** The integer side of a finite-element space: the number of degrees of
    freedom (DOFs) each element type creates on a mesh, and the boundary,
    flag and periodic arrays set up with it; marking Dirichlet DOFs by flag;
    and gathering the arrays of a block of spaces into one. */
module Fespace {
  import Csr
  import opened Incidence

  /** The mesh counts and boundary flags the FE space reads (trimesh). */
  datatype Mesh = Mesh(
    dim: nat,
    nv: nat, nedge: nat, nface: nat, nelm: nat,
    nbv: nat, nbedge: nat, nbface: nat,
    vPerElm: nat, edPerElm: nat, fPerElm: nat,
    vBdry: seq<int>, edBdry: seq<int>, fBdry: seq<int>)

  /** A mesh of dimension 1, 2 or 3 whose boundary arrays hold one flag per
      vertex, edge and face. */
  predicate MeshArrays(mesh: Mesh) {
    1 <= mesh.dim <= 3 && |mesh.vBdry| == mesh.nv && |mesh.edBdry| == mesh.nedge && |mesh.fBdry| == mesh.nface
  }

  /** The integer fields of an FE space (fespace). dirichlet is 1 on a
      Dirichlet DOF and 0 elsewhere; dof_flag is the boundary flag of each DOF;
      periodic is -1 on a DOF with no periodic partner. */
  datatype FeSpace = FeSpace(
    feType: int, nelm: nat, ndof: nat, nbdof: nat, dofPerElm: nat,
    dirichlet: seq<int>, dofFlag: seq<int>, periodic: seq<int>)

  /** Each DOF array has one entry per DOF. */
  predicate Consistent(fe: FeSpace) {
    |fe.dirichlet| == fe.ndof && |fe.dofFlag| == fe.ndof && |fe.periodic| == fe.ndof
  }

  /** The element types create_fespace knows: P0, P1, P2, Nedelec (20),
      Raviart-Thomas (30), vector P1 velocity (60) and bubbles (61). */
  predicate KnownType(feType: int) {
    feType == 0 || feType == 1 || feType == 2 || feType == 20 || feType == 30
    || feType == 60 || feType == 61
  }

  datatype Created = Created(fe: FeSpace) | ErrorFeType

  /** Vertex flags repeated once per velocity component: DOF i is vertex
      i mod nv of component i div nv. */
  function VectorFlags(vBdry: seq<int>, nv: nat, dim: nat): (f: seq<int>)
    requires |vBdry| == nv
    ensures |f| == nv * dim
  {
    if nv == 0 then [] else seq(nv * dim, i requires 0 <= i < nv * dim => vBdry[i % nv])
  }

  /** The boundary flags of the P2 DOFs (get_P2): the vertices first, then
      the element midpoints in 1D (all interior) or the edge midpoints, which
      take their edge's flag. */
  function P2Flags(mesh: Mesh): (f: seq<int>)
    requires MeshArrays(mesh)
  {
    if mesh.dim == 1 then mesh.vBdry + seq(mesh.nelm, _ => 0)
    else mesh.vBdry + mesh.edBdry
  }

  /** A space of the given type and its flag array, with dirichlet a copy of
      the flags and no periodic partners. */
  function NewSpace(feType: int, mesh: Mesh, ndof: nat, nbdof: nat, dofPerElm: nat, flags: seq<int>): FeSpace {
    FeSpace(feType, mesh.nelm, ndof, nbdof, dofPerElm, flags, flags, seq(ndof, _ => -1))
  }

  /** create_fespace, its integer parts: the DOF count per element type, the
      boundary count and DOFs per element, the dirichlet and dof_flag arrays
      and the periodic array. An unknown type is ERROR_FE_TYPE. */
  function CreateFespace(mesh: Mesh, feType: int): (r: Created)
    requires MeshArrays(mesh)
    ensures r.ErrorFeType? <==> !KnownType(feType)
    ensures r.Created? ==> Consistent(r.fe) && r.fe.feType == feType && r.fe.nelm == mesh.nelm
    ensures r.Created? ==> r.fe.dirichlet == r.fe.dofFlag
    ensures r.Created? ==> forall i :: 0 <= i < r.fe.ndof ==> r.fe.periodic[i] == -1
    ensures feType == 0 ==> r.fe.ndof == mesh.nelm && forall i :: 0 <= i < r.fe.ndof ==> r.fe.dofFlag[i] == 0
    ensures feType == 1 ==> r.fe.ndof == mesh.nv && r.fe.dofFlag == mesh.vBdry
    ensures feType == 2 && mesh.dim == 1 ==> r.fe.ndof == mesh.nv + mesh.nelm
    ensures feType == 2 && mesh.dim != 1 ==> r.fe.ndof == mesh.nv + mesh.nedge
    ensures feType == 20 ==> r.fe.ndof == mesh.nedge && r.fe.dofFlag == mesh.edBdry
    ensures (feType == 30 || feType == 61) ==> r.fe.ndof == mesh.nface && r.fe.dofFlag == mesh.fBdry
    ensures feType == 60 ==> r.fe.ndof == mesh.nv * mesh.dim
    ensures feType == 0 ==> r.fe.nbdof == 0 && r.fe.dofPerElm == 1
    ensures feType == 1 ==> r.fe.nbdof == mesh.nbv && r.fe.dofPerElm == mesh.vPerElm
    ensures feType == 2 && mesh.dim == 1 ==> r.fe.nbdof == mesh.nbv && r.fe.dofPerElm == mesh.vPerElm + 1
    ensures feType == 2 && mesh.dim != 1 ==>
      r.fe.nbdof == mesh.nbv + mesh.nbedge && r.fe.dofPerElm == mesh.vPerElm + mesh.edPerElm
    ensures feType == 20 ==> r.fe.nbdof == mesh.nbedge && r.fe.dofPerElm == mesh.edPerElm
    ensures (feType == 30 || feType == 61) ==> r.fe.nbdof == mesh.nbface && r.fe.dofPerElm == mesh.fPerElm
    ensures feType == 60 ==> r.fe.nbdof == mesh.nbv * mesh.dim && r.fe.dofPerElm == mesh.vPerElm * mesh.dim
  {
    match feType
    case 0 => Created(NewSpace(0, mesh, mesh.nelm, 0, 1, seq(mesh.nelm, _ => 0)))
    case 1 => Created(NewSpace(1, mesh, mesh.nv, mesh.nbv, mesh.vPerElm, mesh.vBdry))
    case 2 =>
      if mesh.dim > 1 then
        Created(NewSpace(2, mesh, mesh.nv + mesh.nedge, mesh.nbv + mesh.nbedge,
                         mesh.vPerElm + mesh.edPerElm, P2Flags(mesh)))
      else
        Created(NewSpace(2, mesh, mesh.nv + mesh.nelm, mesh.nbv, mesh.vPerElm + 1, P2Flags(mesh)))
    case 20 => Created(NewSpace(20, mesh, mesh.nedge, mesh.nbedge, mesh.edPerElm, mesh.edBdry))
    case 30 => Created(NewSpace(30, mesh, mesh.nface, mesh.nbface, mesh.fPerElm, mesh.fBdry))
    case 60 =>
      Created(NewSpace(60, mesh, mesh.nv * mesh.dim, mesh.nbv * mesh.dim, mesh.vPerElm * mesh.dim,
                       VectorFlags(mesh.vBdry, mesh.nv, mesh.dim)))
    case 61 => Created(NewSpace(61, mesh, mesh.nface, mesh.nbface, mesh.fPerElm, mesh.fBdry))
    case _ => ErrorFeType
  }

  lemma MulLeft(a: int, b: int, n: nat)
    requires a <= b
    ensures a * n <= b * n
  {
  }

  /** Quotient and remainder are unique: x = q*n + r with 0 <= r < n
      determines x % n. */
  lemma ModUnique(x: int, n: nat, q: int, r: int)
    requires n > 0 && 0 <= r < n && x == q * n + r
    ensures x % n == r
  {
    var q', r' := x / n, x % n;
    assert x == q' * n + r';
    if q' > q {
      MulLeft(q + 1, q', n);
    } else if q' < q {
      MulLeft(q' + 1, q, n);
    }
  }

  lemma ModBlock(c: nat, n: nat, v: nat)
    requires v < n
    ensures (c * n + v) % n == v
  {
    ModUnique(c * n + v, n, c, v);
  }

  lemma BlockIndex(c: nat, n: nat, v: nat, dim: nat)
    requires c < dim && v < n
    ensures c * n + v < n * dim
  {
    assert c * n + v < (c + 1) * n;
    assert (c + 1) * n <= dim * n;
  }

  /** The vector velocity space (type 60) lays out one block of nv DOFs per
      component: DOF c*nv + v is component c at vertex v and carries that
      vertex's boundary flag. */
  lemma VectorBlocks(mesh: Mesh, c: nat, v: nat)
    requires MeshArrays(mesh) && c < mesh.dim && v < mesh.nv
    ensures c * mesh.nv + v < CreateFespace(mesh, 60).fe.ndof
    ensures CreateFespace(mesh, 60).fe.dirichlet[c * mesh.nv + v] == mesh.vBdry[v]
    ensures CreateFespace(mesh, 60).fe.dofFlag[c * mesh.nv + v] == mesh.vBdry[v]
  {
    BlockIndex(c, mesh.nv, v, mesh.dim);
    ModBlock(c, mesh.nv, v);
  }

  /** P2 in 1D: the DOFs of element i, as listed by the element-to-DOF map,
      are its vertices with their flags and then its midpoint, which is never
      a boundary DOF. */
  lemma P2ElementDofFlags(mesh: Mesh, elV: IMap, elN: IMap, i: nat)
    requires MeshArrays(mesh) && mesh.dim == 1
    requires Shaped(elV) && elV.rows == mesh.nelm && EntriesIn(elV, 1, mesh.nv)
    requires AppendsOwnDof(elV, elN, mesh.nv) && i < elN.rows
    ensures var fe := CreateFespace(mesh, 2).fe;
      var row := RowOf(elN, i);
      && 1 <= row[|row| - 1] <= fe.ndof
      && fe.dofFlag[row[|row| - 1] - 1] == 0
      && forall p :: 0 <= p < |row| - 1 ==> 1 <= row[p] <= mesh.nv && fe.dofFlag[row[p] - 1] == mesh.vBdry[row[p] - 1]
  {
    OwnDofOwned(elV, elN, mesh.nv, i);
    var fe := CreateFespace(mesh, 2).fe;
    var row := RowOf(elN, i);
    assert row[|row| - 1] == mesh.nv + 1 + i;
    assert fe.dofFlag[mesh.nv + i] == 0;
  }

  /** P2 above 1D: the extra DOF of edge e, as listed by the edge-to-DOF map,
      carries the edge's boundary flag, and the two vertex DOFs carry their
      vertices' flags. */
  lemma P2EdgeDofFlags(mesh: Mesh, edV: IMap, edN: IMap, e: nat)
    requires MeshArrays(mesh) && mesh.dim > 1
    requires Shaped(edV) && edV.rows == mesh.nedge && EntriesIn(edV, 1, mesh.nv)
    requires AppendsOwnDof(edV, edN, mesh.nv) && e < edN.rows
    ensures var fe := CreateFespace(mesh, 2).fe;
      var row := RowOf(edN, e);
      && 1 <= row[|row| - 1] <= fe.ndof
      && fe.dofFlag[row[|row| - 1] - 1] == mesh.edBdry[e]
      && forall p :: 0 <= p < |row| - 1 ==> 1 <= row[p] <= mesh.nv && fe.dofFlag[row[p] - 1] == mesh.vBdry[row[p] - 1]
  {
    OwnDofOwned(edV, edN, mesh.nv, e);
    var fe := CreateFespace(mesh, 2).fe;
    var row := RowOf(edN, e);
    assert row[|row| - 1] == mesh.nv + 1 + e;
    assert fe.dofFlag[mesh.nv + e] == mesh.edBdry[e];
  }

  /** The dirichlet array set_dirichlet_bdry leaves: 1 exactly on the DOFs
      whose flag lies in [flag0, flag1]. */
  function Marked(flags: seq<int>, flag0: int, flag1: int): (d: seq<int>)
    ensures |d| == |flags|
  {
    seq(|flags|, i requires 0 <= i < |flags| => if flag0 <= flags[i] <= flag1 then 1 else 0)
  }

  /** set_dirichlet_bdry: marks as Dirichlet exactly the DOFs whose flag lies
      in [flag0, flag1], clears every other DOF, and changes nothing else;
      marking again with the same range leaves the space as it is. */
  method SetDirichletBdry(fe: FeSpace, flag0: int, flag1: int) returns (r: FeSpace)
    requires |fe.dirichlet| == fe.ndof && |fe.dofFlag| == fe.ndof
    ensures r == fe.(dirichlet := r.dirichlet)
    ensures |r.dirichlet| == fe.ndof
    ensures forall i :: 0 <= i < fe.ndof ==> (r.dirichlet[i] == 1 <==> flag0 <= fe.dofFlag[i] <= flag1)
    ensures forall i :: 0 <= i < fe.ndof ==> (r.dirichlet[i] == 0 <==> !(flag0 <= fe.dofFlag[i] <= flag1))
    ensures Marked(r.dofFlag, flag0, flag1) == r.dirichlet
  {
    var d := fe.dirichlet;
    var i := 0;
    while i < fe.ndof
      invariant 0 <= i <= fe.ndof && |d| == fe.ndof
      invariant forall k :: 0 <= k < i ==> d[k] == if flag0 <= fe.dofFlag[k] <= flag1 then 1 else 0
    {
      if flag0 <= fe.dofFlag[i] && fe.dofFlag[i] <= flag1 {
        d := d[i := 1];
      } else {
        d := d[i := 0];
      }
      i := i + 1;
    }
    r := fe.(dirichlet := d);
  }

  /** A block of spaces for a coupled problem (block_fespace). */
  datatype BlockFespace = BlockFespace(ndof: nat, spaces: seq<FeSpace>, dirichlet: seq<int>, dofFlag: seq<int>)

  /** DOF counts of the spaces, in order. */
  function Sizes(spaces: seq<FeSpace>): (s: seq<nat>)
    ensures |s| == |spaces| && forall i :: 0 <= i < |spaces| ==> s[i] == spaces[i].ndof
  {
    seq(|spaces|, i requires 0 <= i < |spaces| => spaces[i].ndof)
  }

  /** Where block i starts: the DOF counts of the blocks before it added up. */
  function Offset(sizes: seq<nat>, i: nat): nat
    requires i <= |sizes|
  {
    if i == 0 then 0 else Offset(sizes, i - 1) + sizes[i - 1]
  }

  lemma {:induction false} OffsetMono(sizes: seq<nat>, a: nat, b: nat)
    requires a <= b <= |sizes|
    ensures Offset(sizes, a) <= Offset(sizes, b)
    decreases b - a
  {
    if a < b {
      OffsetMono(sizes, a, b - 1);
    }
  }

  /** Each space's DOF arrays have one entry per DOF. */
  predicate SpacesConsistent(spaces: seq<FeSpace>) {
    forall i :: 0 <= i < |spaces| ==> |spaces[i].dirichlet| == spaces[i].ndof && |spaces[i].dofFlag| == spaces[i].ndof
  }

  /** Value j of block i sits at position Offset(sizes, i) + j of out. */
  predicate PlacedAt(out: seq<int>, arrs: seq<seq<int>>, sizes: seq<nat>, i: nat, j: nat)
    requires i < |arrs| == |sizes|
  {
    j < |arrs[i]| && j < sizes[i] ==> Offset(sizes, i) + j < |out| && out[Offset(sizes, i) + j] == arrs[i][j]
  }

  /** out holds each of the first upto blocks from Offset(sizes, i) onward. */
  predicate Placed(out: seq<int>, arrs: seq<seq<int>>, sizes: seq<nat>, upto: nat)
    requires upto <= |arrs| == |sizes|
  {
    forall i, j :: 0 <= i < upto && 0 <= j < |arrs[i]| ==> PlacedAt(out, arrs, sizes, i, j)
  }

  function Dirichlets(spaces: seq<FeSpace>): (a: seq<seq<int>>)
    ensures |a| == |spaces| && forall i :: 0 <= i < |spaces| ==> a[i] == spaces[i].dirichlet
  {
    seq(|spaces|, i requires 0 <= i < |spaces| => spaces[i].dirichlet)
  }

  function Flags(spaces: seq<FeSpace>): (a: seq<seq<int>>)
    ensures |a| == |spaces| && forall i :: 0 <= i < |spaces| ==> a[i] == spaces[i].dofFlag
  {
    seq(|spaces|, i requires 0 <= i < |spaces| => spaces[i].dofFlag)
  }

  /** set_dirichlet_bdry_block: block i's dirichlet and dof_flag values are
      copied to positions Offset(i) .. Offset(i) + ndof_i - 1 of fresh
      zero-filled arrays of the block's length; the rest stays 0. */
  method SetDirichletBdryBlock(blk: BlockFespace) returns (r: BlockFespace)
    requires SpacesConsistent(blk.spaces)
    requires Offset(Sizes(blk.spaces), |blk.spaces|) <= blk.ndof
    ensures r == blk.(dirichlet := r.dirichlet, dofFlag := r.dofFlag)
    ensures |r.dirichlet| == blk.ndof && |r.dofFlag| == blk.ndof
    ensures Placed(r.dirichlet, Dirichlets(blk.spaces), Sizes(blk.spaces), |blk.spaces|)
    ensures Placed(r.dofFlag, Flags(blk.spaces), Sizes(blk.spaces), |blk.spaces|)
    ensures forall k :: Offset(Sizes(blk.spaces), |blk.spaces|) <= k < blk.ndof ==> r.dirichlet[k] == 0 && r.dofFlag[k] == 0
  {
    var spaces := blk.spaces;
    var isd := seq(blk.ndof, _ => 0);
    var flg := seq(blk.ndof, _ => 0);
    var cnt := 0;
    var i := 0;
    while i < |spaces|
      invariant 0 <= i <= |spaces| && cnt == Offset(Sizes(spaces), i)
      invariant BlockFill(spaces, blk.ndof, i, isd, flg)
    {
      isd, flg := CopyBlock(spaces, blk.ndof, i, cnt, isd, flg);
      cnt := cnt + spaces[i].ndof;
      i := i + 1;
    }
    r := blk.(dirichlet := isd, dofFlag := flg);
  }

  /** The block loop after i spaces: the first i blocks placed, zeros from
      their end onward. */
  predicate BlockFill(spaces: seq<FeSpace>, ndof: nat, i: nat, isd: seq<int>, flg: seq<int>)
    requires i <= |spaces|
  {
    var sizes := Sizes(spaces);
    && |isd| == ndof && |flg| == ndof
    && Offset(sizes, i) <= ndof
    && Placed(isd, Dirichlets(spaces), sizes, i)
    && Placed(flg, Flags(spaces), sizes, i)
    && forall k :: Offset(sizes, i) <= k < ndof ==> isd[k] == 0 && flg[k] == 0
  }

  /** One pass of the block loop: space i is copied to its offset cnt. */
  method CopyBlock(spaces: seq<FeSpace>, ndof: nat, i: nat, cnt: nat, isd: seq<int>, flg: seq<int>)
    returns (isd': seq<int>, flg': seq<int>)
    requires SpacesConsistent(spaces) && Offset(Sizes(spaces), |spaces|) <= ndof
    requires i < |spaces| && cnt == Offset(Sizes(spaces), i)
    requires BlockFill(spaces, ndof, i, isd, flg)
    ensures BlockFill(spaces, ndof, i + 1, isd', flg')
  {
    ghost var sizes := Sizes(spaces);
    OffsetMono(sizes, i + 1, |spaces|);
    isd', flg' := CopySpace(isd, flg, cnt, spaces[i]);
    PlacedKept(isd, isd', Dirichlets(spaces), sizes, i);
    PlacedKept(flg, flg', Flags(spaces), sizes, i);
  }

  /** The inner loop of set_dirichlet_bdry_block: space fe's dirichlet and
      dof_flag values are written at cnt, cnt + 1, ...; nothing before cnt
      changes, and zeros past the space stay zero. */
  method CopySpace(isd: seq<int>, flg: seq<int>, cnt: nat, fe: FeSpace) returns (isd': seq<int>, flg': seq<int>)
    requires |isd| == |flg| && cnt + fe.ndof <= |isd|
    requires |fe.dirichlet| == fe.ndof && |fe.dofFlag| == fe.ndof
    requires forall k :: cnt <= k < |isd| ==> isd[k] == 0 && flg[k] == 0
    ensures |isd'| == |isd| && |flg'| == |flg|
    ensures isd'[..cnt] == isd[..cnt] && flg'[..cnt] == flg[..cnt]
    ensures forall j :: 0 <= j < fe.ndof ==> isd'[cnt + j] == fe.dirichlet[j] && flg'[cnt + j] == fe.dofFlag[j]
    ensures forall k :: cnt + fe.ndof <= k < |isd| ==> isd'[k] == 0 && flg'[k] == 0
  {
    isd', flg' := isd, flg;
    var j := 0;
    while j < fe.ndof
      invariant 0 <= j <= fe.ndof
      invariant |isd'| == |isd| && |flg'| == |flg|
      invariant isd'[..cnt] == isd[..cnt] && flg'[..cnt] == flg[..cnt]
      invariant forall j' :: 0 <= j' < j ==> isd'[cnt + j'] == fe.dirichlet[j'] && flg'[cnt + j'] == fe.dofFlag[j']
      invariant forall k :: cnt + j <= k < |isd| ==> isd'[k] == 0 && flg'[k] == 0
    {
      isd' := isd'[cnt + j := fe.dirichlet[j]];
      flg' := flg'[cnt + j := fe.dofFlag[j]];
      j := j + 1;
    }
  }

  /** Blocks already placed survive writes past their end, and block i is
      placed once its values sit at Offset(i) onward. */
  lemma PlacedKept(before: seq<int>, after: seq<int>, arrs: seq<seq<int>>, sizes: seq<nat>, i: nat)
    requires i < |arrs| == |sizes| && |before| == |after|
    requires forall k :: 0 <= k < |arrs| ==> |arrs[k]| == sizes[k]
    requires Offset(sizes, i) + sizes[i] <= |after|
    requires Placed(before, arrs, sizes, i)
    requires after[..Offset(sizes, i)] == before[..Offset(sizes, i)]
    requires forall j :: 0 <= j < sizes[i] ==> after[Offset(sizes, i) + j] == arrs[i][j]
    ensures Placed(after, arrs, sizes, i + 1)
  {
    forall i', j | 0 <= i' < i + 1 && 0 <= j < |arrs[i']|
      ensures PlacedAt(after, arrs, sizes, i', j)
    {
      assert PlacedAt(before, arrs, sizes, i', j) || i' == i;
      if i' < i && j < sizes[i'] {
        OffsetMono(sizes, i' + 1, i);
        assert after[Offset(sizes, i') + j] == after[..Offset(sizes, i)][Offset(sizes, i') + j];
      }
    }
  }

  /** Whatever the copy loop wrote, a placed prefix is the spaces' arrays end
      to end: the block arrays are the concatenation of the spaces' arrays. */
  lemma {:induction false} PlacedConcat(out: seq<int>, arrs: seq<seq<int>>, sizes: seq<nat>, n: nat)
    requires n <= |arrs| == |sizes|
    requires forall k :: 0 <= k < |arrs| ==> |arrs[k]| == sizes[k]
    requires Placed(out, arrs, sizes, n)
    requires Offset(sizes, n) <= |out|
    ensures out[..Offset(sizes, n)] == Csr.Flatten(arrs[..n])
  {
    if n > 0 {
      OffsetMono(sizes, n - 1, n);
      var lo := Offset(sizes, n - 1);
      var last := arrs[n - 1];
      assert out[lo .. Offset(sizes, n)] == last by {
        forall j | 0 <= j < |last| ensures out[lo + j] == last[j] {
          assert PlacedAt(out, arrs, sizes, n - 1, j);
        }
      }
      PlacedConcat(out, arrs, sizes, n - 1);
      Csr.FlattenStep(arrs, n - 1);
      assert out[..Offset(sizes, n)] == out[..lo] + out[lo .. Offset(sizes, n)];
    }
  }

  /** The block dirichlet array is the spaces' dirichlet arrays end to end,
      then zeros; likewise the dof_flag array. */
  lemma BlockArrays(blk: BlockFespace, r: BlockFespace)
    requires SpacesConsistent(blk.spaces)
    requires Offset(Sizes(blk.spaces), |blk.spaces|) <= blk.ndof
    requires |r.dirichlet| == blk.ndof && |r.dofFlag| == blk.ndof
    requires Placed(r.dirichlet, Dirichlets(blk.spaces), Sizes(blk.spaces), |blk.spaces|)
    requires Placed(r.dofFlag, Flags(blk.spaces), Sizes(blk.spaces), |blk.spaces|)
    requires forall k :: Offset(Sizes(blk.spaces), |blk.spaces|) <= k < blk.ndof ==> r.dirichlet[k] == 0 && r.dofFlag[k] == 0
    ensures var total := Offset(Sizes(blk.spaces), |blk.spaces|);
      && r.dirichlet == Csr.Flatten(Dirichlets(blk.spaces)) + seq(blk.ndof - total, _ => 0)
      && r.dofFlag == Csr.Flatten(Flags(blk.spaces)) + seq(blk.ndof - total, _ => 0)
  {
    var sp := blk.spaces;
    var total := Offset(Sizes(sp), |sp|);
    PlacedConcat(r.dirichlet, Dirichlets(sp), Sizes(sp), |sp|);
    PlacedConcat(r.dofFlag, Flags(sp), Sizes(sp), |sp|);
    assert Dirichlets(sp)[..|sp|] == Dirichlets(sp);
    assert Flags(sp)[..|sp|] == Flags(sp);
    assert r.dirichlet == r.dirichlet[..total] + r.dirichlet[total..];
    assert r.dofFlag == r.dofFlag[..total] + r.dofFlag[total..];
  }
}
