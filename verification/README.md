# Unsmoothed-aggregation AMG setup, FE-space DOF bookkeeping and simplicial-complex merging

This project models, in Dafny, three cores of the HAZmath finite-element and
solver library.

**Algebraic multigrid setup with unsmoothed aggregation** (`src/solver/amg_setup_ua.c`)
- `Strength` (`strength.dfy`): the filtered graph of strong couplings,
  `construct_strong_couped`. A stored entry survives when it is on the
  diagonal, or when it is negative and `a_ij^2 >= theta^2 |a_ii a_jj|`.
- `AggregationVmb` (`aggregation_vmb.dfy`): the greedy three-sweep aggregation
  of Vanek, Mandel and Brezina, `aggregation_vmb`. It includes the counter
  `num_left` exactly as the routine keeps it.
- `AggregationHec` (`aggregation_hec.dfy`): heavy-edge aggregation,
  `aggregation_hec`. The vertices are visited in a given order.
- `Prolongation` (`prolongation.dfy`): the piecewise-constant prolongations,
  `form_tentative_p` and `form_boolean_p`. Both are built in the routines'
  two passes over the aggregation vector.
- `AmgSetup` (`amg_setup.dfy`): the setup driver,
  `amg_setup_unsmoothP_unsmoothR`. It covers `min_cdof` (with its SHORT
  conversion), the level loop and its three exits, the adaptive strength
  threshold, the hierarchy built level by level, and the work-vector sizes.
- `Labels` (`labels.dfy`): the aggregation vector shared by both
  aggregations. `-2` means not yet decided, `-1` (UNPT) means isolated, and
  any other value is an aggregate id.
- `Csr` (`csr.dfy`): compressed-row matrices (dCSRmat, 0-based) and their row
  view.

**Finite-element spaces** (`src/fem/fespace.c`)
- `Fespace` (`fespace.dfy`): the integer side of `create_fespace`. That is the
  DOF count, boundary-DOF count and DOFs per element of each element type,
  and the `dirichlet`, `dof_flag` and `periodic` arrays. It also models
  `set_dirichlet_bdry` and `set_dirichlet_bdry_block`.
- `Incidence` (`incidence.dfy`): 1-based incidence maps (iCSRmat),
  `get_incidence_row`, and the P2 element-to-DOF map in 1D and edge-to-DOF
  map built in `get_P2`.

**Merging simplicial complexes** (`trabajo/gridding/main_grid.c`)
- `Scomplex` (`scomplex.dfy`): `scomplex_merge`. The complexes of the macro
  elements are appended to the first one. Node numbers are shifted by the
  vertices already present, and neighbour numbers by the simplices already
  present.

Library kernels that are not part of this model are parameters of the driver:
`dcsr_getdiag`, `dcsr_trans`, `dcsr_rap_agg` and `iarray_shuffle`. The
`Kernels` record holds them, and the predicate `Sound` states what the setup
relies on from them. `MIN_CDOF` is a library constant defined outside the
modelled files; it is the parameter `minCoarse`.

Two behaviours of the code are stated as lemmas rather than treated as bugs:
- `AmgSetup.ThetaNoMiddleBand`. After the test `num_aggs*4 > row` fails, the
  test `num_aggs*1.25 < row` always holds on a nonempty level. So the
  threshold is halved or doubled on every level and never left alone.
- `Scomplex.MergeNbrShift`. `scomplex_merge` adds the simplex offset to
  every neighbour entry, including the `-1` of a boundary face. Such an
  entry ends up as the offset minus one, which is the number of the previous
  component's last simplex.

## Model

| member | source | states |
|---|---|---|
| Strength.ConstructStrongCoupled | src/solver/amg_setup_ua.c:152-207 | The one-pass fill with running index `index` yields a valid square matrix. Row i of it is the subsequence of row i of A that passes the strength test, in storage order. It never has more nonzeros than A. |
| Strength.FilterRowMembers | src/solver/amg_setup_ua.c:183-193 | An entry is in a filtered row iff it is in the original row and passes the test: it is the diagonal, or it is negative with `a_ij^2 >= theta^2 \|a_ii a_jj\|`. |
| Strength.FilterRowAppend | src/solver/amg_setup_ua.c:180-193 | Filtering a concatenation of row pieces is the concatenation of the filtered pieces, so relative order is kept. |
| Strength.FilterRowIdempotent | src/solver/amg_setup_ua.c:183-193 | Filtering a filtered row leaves it unchanged. |
| Strength.StrongGraphIdempotent | src/solver/amg_setup_ua.c:152-207 | Building the strong graph of a strong graph, with the same diagonal and threshold, gives the same graph. |
| Strength.DiagonalKept | src/solver/amg_setup_ua.c:183-184 | A stored diagonal entry always survives the filter, whatever the threshold. |
| Strength.OffDiagonalNegative | src/solver/amg_setup_ua.c:183-186 | Every off-diagonal entry of the filtered graph is strictly negative. |
| AggregationVmb.Pass1Facts | src/solver/amg_setup_ua.c:264-298 | After sweep 1, labels are markers or ids below the count, every id has a member, and no aggregate exceeds the cap. A vertex is UNPT iff its filtered row has one entry. `num_left` never exceeds the number of unassigned vertices. |
| AggregationVmb.Pass2Facts | src/solver/amg_setup_ua.c:313-332 | Sweep 2 only moves unassigned vertices into sweep-1 aggregates and keeps every aggregate within the cap. Each vertex follows the join rule, with sizes counted when sweep 2 reaches it (later vertices already joined, earlier ones not yet). It takes the first neighbour, in storage order, whose sweep-1 aggregate was then below the cap, every earlier such aggregate being full then. If there is none, it stays unassigned. `num_left` keeps its drift from the true unassigned count. |
| AggregationVmb.Sweeps12Facts | src/solver/amg_setup_ua.c:264-332 | The state after sweeps 1 and 2 is a capped aggregation with no empty id and the sweep-1 count. It differs from sweep 1 only by joins that follow the join rule, counted at each vertex's turn. |
| AggregationVmb.Sweeps12Unique | src/solver/amg_setup_ua.c:313-332 | The join rule decides sweep 2 completely. Take any labelling that only moves vertices unassigned after sweep 1 into sweep-1 aggregates, and obeys the join rule at every vertex. It is exactly the labelling sweeps 1 and 2 produce. |
| AggregationVmb.Pass3SweepFacts | src/solver/amg_setup_ua.c:337-354 | One step-3 sweep leaves no vertex unassigned and keeps every decided label. It ends with `num_left` equal to minus its drift. |
| AggregationVmb.Pass3AtMostOnce | src/solver/amg_setup_ua.c:336-355 | The `while (num_left > 0)` loop runs its body at most once. |
| AggregationVmb.VmbFacts | src/solver/amg_setup_ua.c:231-363 | Corrected routine: it fails, with the coarsening error and the sweep-1 labels, exactly when sweep 1 forms fewer than MIN_CDOF aggregates. Otherwise every vertex is decided, the labels form a capped aggregation with every id used and exactly the one-entry rows isolated, and there are at most n aggregates. |
| AggregationVmb.VmbAsWrittenFacts | src/solver/amg_setup_ua.c:231-363 | The routine as written satisfies all of the above except coverage. |
| AggregationVmb.VmbJoinRule | src/solver/amg_setup_ua.c:318-355 | The join rule can be read off the final labels. A vertex left unassigned by sweep 1 that ends in a sweep-1 aggregate took the first position of its row whose aggregate had room when sweep 2 reached it. If it ends in a step-3 aggregate, every sweep-1 aggregate in its row was full at that moment. |
| AggregationVmb.AsWrittenLeavesVertex | src/solver/amg_setup_ua.c:268-298 | On a concrete 3x3 graph with cap 2, the routine as written returns SUCCESS with vertex 0 still at -2. The corrected routine opens aggregate 1 for it. |
| AggregationVmb.WellFormedAgree | src/solver/amg_setup_ua.c:245-355 | On a graph with stored diagonals, no repeated columns and a symmetric pattern, `num_left` is exact. There the routine as written equals the corrected one and leaves no vertex undecided on success. |
| AggregationVmb.SymmetricLeavesVertex | src/solver/amg_setup_ua.c:268-298 | On a concrete 4x4 graph with a symmetric pattern but rows 0 and 2 storing no diagonal, with cap 2, the routine as written returns SUCCESS with vertex 1 still at -2. The corrected routine opens aggregate 1 for it. |
| AggregationHec.HeaviestPosSpec | src/solver/amg_setup_ua.c:440-451 | The search over row i finds a position iff the row has a nonzero off-diagonal entry. The position found is the first off-diagonal of largest magnitude. |
| AggregationHec.HecStep | src/solver/amg_setup_ua.c:433-467 | Visiting an unvisited vertex keeps the loop invariant and leaves the labels of the vertices visited before it unchanged. |
| AggregationHec.HecStable | src/solver/amg_setup_ua.c:433-467 | A visited vertex keeps the label its own step gave it until the loop ends. |
| AggregationHec.HecFacts | src/solver/amg_setup_ua.c:388-474 | For a visiting order that is a permutation, the routine always returns SUCCESS and every vertex is decided. Labels are UNPT or ids below the count, every id has a member, the count is at most n, and one-entry rows are isolated. |
| AggregationHec.HecCounts | src/solver/amg_setup_ua.c:433-467 | Even when a row leaves the search position unset, labels are in range, every id has a member and the count is at most n. |
| AggregationHec.HecFollowLabel | src/solver/amg_setup_ua.c:461-464 | A vertex whose heaviest neighbour was visited earlier takes that neighbour's current label at its own step. |
| AggregationHec.HecPairStep | src/solver/amg_setup_ua.c:451-464 | At a vertex with a heaviest neighbour j: if j is still unassigned, both get the current count as a new id, that id has exactly these two members, and the count grows by one. Otherwise the vertex takes j's label and the count stays. No other label changes. |
| AggregationHec.HecJoinsVisited | src/solver/amg_setup_ua.c:453-464 | Such a vertex ends in the same aggregate as that neighbour. |
| AggregationHec.StarHeaviest | src/solver/amg_setup_ua.c:440-451 | On a star with equal weights, each leaf's heaviest entry is the centre, and the centre's is its first leaf. |
| AggregationHec.HecUncapped | src/solver/amg_setup_ua.c:396 | Aggregate sizes are not capped: a star with centre 0 visited in order 0, 1, 2 becomes one aggregate of size 3. |
| Prolongation.FormTentativeP | src/solver/amg_setup_ua.c:43-87 | P has one row per vertex and one column per aggregate. Its nonzeros number the aggregated vertices, and `IA[i]` counts the aggregated vertices before i. The storage is the matrix whose row i is `[(lab[i], w[i])]` for an aggregated vertex and empty otherwise. |
| Prolongation.RowOffsets | src/solver/amg_setup_ua.c:63-68 | The first run leaves `IA[k]` equal to the number of aggregated vertices before k, for every k up to and including `row`. |
| Prolongation.FormBooleanP | src/solver/amg_setup_ua.c:106-149 | The same matrix with unit weights. |
| Prolongation.ProlongatorRows | src/solver/amg_setup_ua.c:77-86 | With labels in range, P is valid CSR. An aggregated vertex's row is the single entry in its aggregate's column with its weight, and any other row is empty. |
| Prolongation.ProlongatorApply | src/solver/amg_setup_ua.c:43-87 | P interpolates piecewise constantly: `(P x)_i = w_i x_{lab[i]}` on aggregated vertices and 0 elsewhere. |
| Prolongation.ColumnCounts | src/solver/amg_setup_ua.c:77-86 | Over any prefix of the rows, column a occurs as often as label a in that prefix. |
| Prolongation.AggregateSizes | src/solver/amg_setup_ua.c:77-86 | Column a of P holds exactly as many entries as aggregate a has members. |
| Prolongation.TentativeWithOnes | src/solver/amg_setup_ua.c:559-565 | With the fine-level all-ones near-kernel vector as the basis, the tentative prolongation of any level is the boolean one. |
| AmgSetup.ThetaNoMiddleBand | src/solver/amg_setup_ua.c:620-624 | On a nonempty level the threshold is halved when `numAgg*4 > rows` and doubled otherwise. A nonzero threshold always changes. |
| AmgSetup.AggregateFacts | src/solver/amg_setup_ua.c:601-618 | The aggregation call returns the type error iff the aggregation type is unknown, and HEC always succeeds. For a known type, the labels are one per row, in range, with every id used and at most n ids. |
| AmgSetup.CoarsenLevel | src/solver/amg_setup_ua.c:601-671 | The loop body stops with the type error iff the type is unknown. It stops with AggregationFailed iff the aggregation fails, and with TooFewCoarse iff it succeeds with fewer than MIN_CDOF aggregates. Otherwise it delivers the adapted threshold, the boolean tentative P, R = trans(P) and the square coarse matrix R A P, with one row per aggregate and no more rows than A. |
| AmgSetup.BuiltExtend | src/solver/amg_setup_ua.c:592-677 | Appending a level coarsened as the loop body does keeps the hierarchy built level by level from the input. |
| AmgSetup.NextBuilt | src/solver/amg_setup_ua.c:592-677 | A pass that delivers a coarse level extends the hierarchy, and the coarse level is no larger. |
| AmgSetup.NextLevel | src/solver/amg_setup_ua.c:601-676 | One pass on the last level stops with the type error iff the type is unknown. When it stops otherwise, its stop reason and written-back threshold are the ones StopReason and FinalTheta derive from the level. When it goes on, the hierarchy extended by the new level is still built level by level and the new level is no larger. |
| AmgSetup.Finish | src/solver/amg_setup_ua.c:614-638 | A pass that stops ends the run: with the type error and just the fine level when the type is unknown, and otherwise with SUCCESS and the hierarchy built so far, satisfying the whole setup postcondition. |
| AmgSetup.AmgSetupUnsmoothed | src/solver/amg_setup_ua.c:531-735 | The status is the type error iff the aggregation type is unknown and the loop is entered; otherwise it is SUCCESS, even after a failed coarsening. On success: at least one level (at most max_levels when it coarsened), each level square and coarsened from the previous one, work vectors of m and then two or three times each coarse size, and a stop reason that is one of the guard's two tests or the pass's two exits, evaluated on the last level, so a successful run never stops at a level the loop would go on to coarsen. |
| AmgSetup.LevelsShrink | src/solver/amg_setup_ua.c:592-677 | Along the hierarchy, the row counts never increase. |
| Incidence.GetIncidenceRow | src/fem/fespace.c:765-778 | The copied row has `IA[row+1]-IA[row]` entries, or none when that is not positive, and entry j is `JA[IA[row]-1+j]`. On a well-shaped map it is exactly row `row`. |
| Incidence.RowsCover | src/fem/fespace.c:765-778 | On a well-shaped map, the rows read one after another give back JA. |
| Incidence.P2ElementMap1D | src/fem/fespace.c:484-502 | The 1D P2 element-to-DOF map has `v_per_elm+1` entries per element with `IA[i] = dof_per_elm*i+1`. Its columns number the vertices and the midpoints. Row i is element i's vertices followed by DOF `nv+i+1`. |
| Incidence.ElementRows | src/fem/fespace.c:490-501 | The JA array of el_n is every element's vertices followed by its midpoint DOF, element after element. |
| Incidence.P2EdgeMap | src/fem/fespace.c:559-571 | The edge-to-DOF map has three entries per edge, with last offset `3*nedge+1`. Row i is edge i's two vertices followed by DOF `nv+i+1`. |
| Incidence.EdgeRows | src/fem/fespace.c:559-570 | The edge loop writes offset `3i+1` for edge i, and JA is every edge's two vertices and its DOF, edge after edge. |
| Incidence.OwnDofOwned | src/fem/fespace.c:498-501 | In an extended map, only the last entry of a row exceeds nv. That entry is `nv+1+i`, and every entry lies in `1..nv+rows`. |
| Incidence.OwnDofUnique | src/fem/fespace.c:559-571 | A new DOF appears in no row but its own, and only in the last position. |
| Fespace.CreateFespace | src/fem/fespace.c:55-311 | An unknown type is ERROR_FE_TYPE iff the type is not 0, 1, 2, 20, 30, 60 or 61. Otherwise each DOF array has ndof entries, dirichlet equals dof_flag and every periodic entry is -1. ndof is nelm, nv, nv+nelm (P2 in 1D) or nv+nedge (P2 above 1D), nedge, nface, or nv*dim, with flags from the matching boundary arrays. The boundary-DOF count and DOFs per element follow the same table: 0 and 1 for P0, the vertex, edge or face counts, `nbv+nbedge` and `v_per_elm+ed_per_elm` for P2 above 1D, `nbv` and `v_per_elm+1` in 1D, and dim times the vertex counts for vector P1. |
| Fespace.VectorBlocks | src/fem/fespace.c:206-269 | In the vector velocity space, DOF `c*nv+v` exists and carries vertex v's boundary flag in both arrays. |
| Fespace.P2ElementDofFlags | src/fem/fespace.c:535-548 | In 1D P2, an element's midpoint DOF is a valid DOF with flag 0. Its vertex DOFs carry their vertices' flags. |
| Fespace.P2EdgeDofFlags | src/fem/fespace.c:535-555 | Above 1D, an edge's own DOF carries the edge's boundary flag, and its vertex DOFs carry their vertices' flags. |
| Fespace.SetDirichletBdry | src/fem/fespace.c:702-713 | Only dirichlet changes. A DOF is 1 iff its flag lies in `[flag0, flag1]` and 0 iff it does not. The result is the marking of the flags, so a second call changes nothing. |
| Fespace.SetDirichletBdryBlock | src/fem/fespace.c:730-750 | Only the two block arrays change, with ndof entries each. Value j of space i sits at the sum of the earlier spaces' sizes plus j, and positions past all spaces are 0. |
| Fespace.CopySpace | src/fem/fespace.c:739-743 | The inner copy writes the space's values at cnt, cnt+1, ... It leaves everything before cnt unchanged, and zeros past the space stay zero. |
| Fespace.PlacedConcat | src/fem/fespace.c:737-745 | Whatever the copy loop wrote, the placed prefix is the spaces' arrays end to end. |
| Fespace.BlockArrays | src/fem/fespace.c:730-750 | The block dirichlet (dof_flag) array is the spaces' dirichlet (dof_flag) arrays end to end, padded with zeros to ndof. |
| Scomplex.ScomplexMerge | trabajo/gridding/main_grid.c:56-117 | With one element the complex is returned untouched. Otherwise cc and bndry_cc are set and the result is the components appended in order. The arrays are sized by n, ns and nv, the counts are the sums over the components, and the first complex's data is a prefix. |
| Scomplex.MergeSizes | trabajo/gridding/main_grid.c:83-112 | Merging k components yields a well-sized complex of the common dimension whose ns and nv are the sums of the components' counts. |
| Scomplex.MergeExtends | trabajo/gridding/main_grid.c:83-112 | Merging more components only appends: the merge of k components is a prefix of the merge of m >= k. |
| Scomplex.MergeBlock | trabajo/gridding/main_grid.c:85-110 | Component k occupies simplices from the sum of the earlier ns and vertices from the sum of the earlier nv. There its per-simplex and per-vertex data appear unchanged, its nodes shifted by the vertex offset and its neighbours by the simplex offset. |
| Scomplex.BlockStep | trabajo/gridding/main_grid.c:85-110 | One round of the merge lays the appended component down at the current counts, and leaves every earlier component's block where it was. |
| Scomplex.MergeNodesValid | trabajo/gridding/main_grid.c:94-99 | If every component's nodes name its own vertices, every node of the merged complex names a merged vertex. |
| Scomplex.MergeNbrShift | trabajo/gridding/main_grid.c:98 | A neighbour entry of component k becomes entry plus the simplex offset. A boundary marker -1 becomes the offset minus one. |

## Left out

- Timing, printing, Schwarz smoother setup, AMLI coefficients, `DIAGONAL_PREF` reordering and the UMFPACK factorisation of the coarsest level: output, floating-point kernels or external solvers with no effect on the hierarchy's structure.
- `dcsr_getdiag`, `dcsr_trans`, `dcsr_rap_agg`, `iarray_shuffle`, `check_error`: not part of this model. They are parameters, and `Sound` states what the setup needs of them. `check_error` on an unknown aggregation type is taken to end the run, as its message says.
- `MIN_CDOF` and the status codes: their definitions are not part of this model. `MIN_CDOF` is the parameter `minCoarse`, and the statuses are a datatype.
- AggregationHec.HecVertex: when a non-isolated row has no nonzero off-diagonal entry, the routine reads the uninitialised or stale `k`. The model leaves the vertex as it is, and `HecFacts` requires `HecReady`, which excludes such rows.
- Integer widths: INT arithmetic is unbounded; only the SHORT conversion of `min_cdof` wraps (`AmgSetup.Short`). Strength-test arithmetic is on reals, with no rounding.
- The geometric parts of `create_fespace` and `get_P2`: coordinates of DOFs, basis-function buffers and the midpoint computation. These are floating point or allocation only.
- The P2 element-to-DOF map above 1D (matching an element's edges through `ed_el`) and the face-to-DOF map `f_n`: they depend on mesh maps built elsewhere.
- Incidence.P2ElementMap1D, Incidence.P2EdgeMap: the source computes the output offsets from `dof_per_elm` rather than reading them, so the input maps are required to have uniform rows (`Uniform`), as a mesh's element-to-vertex and edge-to-vertex maps do.
- Fespace.SetDirichletBdryBlock: the two copies made per DOF are modelled in one loop; the mesh argument is unused by the routine and is dropped.
- Scomplex.ScomplexMerge: the `realloc` growth of each array to `nsall`/`nvall` is only the precondition that the counts fit. The flat per-simplex arrays (stride n+1 for nodes and neighbours) and per-vertex arrays (stride n for coordinates) are modelled as one `Simplex` record per simplex and one `Vertex` record per vertex. Freeing the merged components is left out.
- AmgSetup.CoarsenLevel: when the aggregation type is VMB, the level is coarsened with the corrected routine `AggregationVmb.Vmb`, not the routine as written. On a graph where the routine as written leaves a vertex at -2 (see Findings), the program's P has an empty row there and fewer columns, and so its R·A·P, threshold update and level size differ from what this contract describes.
- AmgSetup.NextLevel: its stop reason and written-back threshold come from the corrected VMB aggregation, for the same reason as CoarsenLevel. On the Findings input they can differ from the program's.
- AmgSetup.AmgSetupUnsmoothed: the whole hierarchy is built on the corrected VMB aggregation, for the same reason as CoarsenLevel. The program's hierarchy differs only on graphs where the routine as written leaves a vertex undecided; `AggregationVmb.WellFormedAgree` shows the two agree on graphs that store every diagonal, repeat no column and have a symmetric pattern; a symmetric pattern alone is not enough, since a row without its stored diagonal can still trigger the miscount.
- AmgSetup.AggregateFacts: its facts are stated for the corrected VMB routine. `AggregationVmb.VmbAsWrittenFacts` gives the same facts, minus coverage, for the routine as written.
- `free_fespace`, `free_blockfespace`, `dump_el_dof`, `dump_fespace`, `initialize_fespace`: memory release and file output.

## Findings

| source | as written | input that shows it | evidently intended | confidence | as-written member | corrected member |
|---|---|---|---|---|---|---|
| src/solver/amg_setup_ua.c:268-298, 336 | Sweep 1 lowers `num_left` for an isolated vertex even when an earlier seed had already absorbed it (and counted it). `num_left` then runs below the true number of unassigned vertices, and step 3, guarded by `num_left > 0`, can be skipped while a vertex is still -2. | Filtered graph with rows {0,1}, {1}, {2,1} (3x3), cap 2, MIN_CDOF 1. Vertex 2 seeds {2,1}, vertex 1 is then marked UNPT and counted again, and vertex 0 is left at -2 with SUCCESS. | Every vertex is decided on success: step 3 runs while some vertex is unassigned. | not executed | AggregationVmb.AsWrittenLeavesVertex | AggregationVmb.VmbFacts |

The rest of the model uses the corrected routine: `AggregationVmb.AggregationVmb`, which the setup driver calls, is built on `Vmb`. `AggregationVmb.WellFormedAgree` shows that the two agree on graphs that store every diagonal, repeat no column and have a symmetric pattern. A symmetric pattern alone does not rule the miscount out: on rows {3}, {1,2}, {1}, {3,0} (rows 0 and 2 store no diagonal) with cap 2 and MIN_CDOF 1, the routine as written still returns SUCCESS with vertex 1 at -2 (`AggregationVmb.SymmetricLeavesVertex`).
