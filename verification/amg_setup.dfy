/** The setup phase of unsmoothed-aggregation AMG
    (amg_setup_unsmoothP_unsmoothR): starting from the fine matrix, it
    repeatedly aggregates the current level, adapts the strength threshold,
    forms the tentative prolongation P, the restriction R = P^T and the
    coarse matrix R A P, until the level is small enough, the level budget is
    spent, or a coarsening step fails. It then sizes the per-level work
    vectors. */
module AmgSetup {
  import opened Csr
  import opened Labels
  import AggregationVmb
  import AggregationHec
  import Prolongation
  import Strength

  datatype AggType = Vmb | Hec | UnknownAgg

  /** The AMG parameters the setup reads. */
  datatype Params = Params(
    coarseDof: int,    // requested coarsest size
    maxLevels: int,    // level budget
    aggType: AggType,
    theta: real,       // strength threshold, adapted per level
    maxAgg: int,       // aggregate cap of the VMB aggregation
    nlAmli: bool)      // the nonlinear AMLI cycle needs larger work vectors

  /** Library kernels the setup calls and that are not part of this model:
      dcsr_getdiag, dcsr_trans, dcsr_rap_agg and the shuffle of 0 .. n-1 used
      by the heavy-edge aggregation. */
  datatype Kernels = Kernels(
    diag: Matrix -> seq<real>,
    trans: Matrix -> Matrix,
    rap: (Matrix, Matrix, Matrix) -> Matrix,
    shuffle: nat -> seq<int>)

  /** What the setup relies on from the kernels: one diagonal entry per row,
      a true permutation from the shuffle, and a square coarse matrix with one
      row per column of P. */
  ghost predicate Sound(k: Kernels) {
    && (forall a :: ValidSquare(a) ==> |k.diag(a)| == a.rows)
    && (forall n: nat :: AggregationHec.IsPermutation(k.shuffle(n), n))
    && (forall r, a, p :: ValidSquare(k.rap(r, a, p)) && k.rap(r, a, p).rows == p.cols)
  }

  /** Conversion to the 16-bit SHORT type: two's-complement wrap-around. */
  function Short(x: int): (s: int)
    ensures -32768 <= s < 32768 && (x - s) % 65536 == 0
  {
    (x + 32768) % 65536 - 32768
  }

  /** min_cdof: the larger of coarse_dof and 50, stored as a SHORT. */
  function MinCdof(coarseDof: int): int {
    Short(if coarseDof > 50 then coarseDof else 50)
  }

  /** Within the SHORT range min_cdof is max(coarse_dof, 50); beyond it the
      stored value wraps around and can be negative. */
  lemma MinCdofRange(coarseDof: int)
    ensures coarseDof < 32768 ==> MinCdof(coarseDof) == (if coarseDof > 50 then coarseDof else 50)
    ensures coarseDof == 32768 ==> MinCdof(coarseDof) == -32768
  {
  }

  /** The adaptive threshold: halve it when the aggregates are many (more
      than a quarter of the rows), double it when they are few (1.25 times
      the count below the rows). */
  function ThetaUpdate(theta: real, numAgg: int, rows: int): real {
    if numAgg * 4 > rows then theta / 2.0
    else if numAgg as real * 1.25 < rows as real then theta * 2.0
    else theta
  }

  /** The two tests leave no middle band: on a nonempty level the threshold
      is halved exactly when the aggregates exceed a quarter of the rows and
      doubled otherwise, so it never stays put (unless it is 0). */
  lemma ThetaNoMiddleBand(theta: real, numAgg: nat, rows: int)
    requires rows > 0
    ensures ThetaUpdate(theta, numAgg, rows) == (if numAgg * 4 > rows then theta / 2.0 else theta * 2.0)
    ensures theta != 0.0 ==> ThetaUpdate(theta, numAgg, rows) != theta
  {
    if numAgg * 4 <= rows {
      assert numAgg as real * 4.0 <= rows as real;
    }
  }

  /** The aggregation call of one level, by aggregation type. */
  function Aggregate(k: Kernels, prm: Params, theta: real, a: Matrix, minCoarse: int): (r: AggResult)
    requires ValidSquare(a) && Sound(k)
  {
    match prm.aggType
    case Vmb => AggregationVmb.AggregationVmb(a, k.diag(a), theta, prm.maxAgg, minCoarse)
    case Hec => AggregationHec.AggregationHec(a, k.diag(a), theta, k.shuffle(a.rows))
    case UnknownAgg => AggResult(ErrorAmgAggType, [], 0)
  }

  /** Both aggregations return one label per row, labels in range, every id
      used and no more aggregates than rows; only VMB can fail, and only with
      the coarsening error; an unknown type yields the type error. */
  lemma AggregateFacts(k: Kernels, prm: Params, theta: real, a: Matrix, minCoarse: int)
    requires ValidSquare(a) && Sound(k)
    ensures var r := Aggregate(k, prm, theta, a, minCoarse);
      && (r.status == ErrorAmgAggType <==> prm.aggType == UnknownAgg)
      && (prm.aggType == Hec ==> r.status == Success)
      && (prm.aggType != UnknownAgg ==>
            |r.lab| == a.rows && LabelsIn(r.lab, r.numAgg) && EveryIdUsed(r.lab, r.numAgg) && r.numAgg <= a.rows)
  {
    var g := Strength.StrongGraph(a, k.diag(a), theta);
    match prm.aggType
    case Vmb => AggregationVmb.VmbFacts(g, prm.maxAgg, minCoarse);
    case Hec => AggregationHec.HecCounts(g, k.shuffle(a.rows));
    case UnknownAgg =>
  }

  /** Why the level loop stopped. */
  datatype Stop = SmallEnough | LevelLimit | AggregationFailed | TooFewCoarse | UnknownAggType

  /** The multigrid hierarchy: level matrices, prolongations, restrictions,
      the aggregation of each coarsened level, the threshold used on each
      level, the final threshold written back to the parameters, the level
      count and the work-vector length of each level. */
  datatype Hierarchy = Hierarchy(
    status: Status, a: seq<Matrix>, p: seq<Matrix>, r: seq<Matrix>, aggs: seq<AggResult>,
    thetas: seq<real>, theta: real, numLevels: nat, work: seq<int>, stop: Stop)

  /** Level l of the hierarchy was coarsened as the loop body does it from
      the aggregation aggs[l]: the level was above min_cdof, the aggregation
      succeeded, the threshold was adapted, P is the tentative prolongation
      (all-ones weights) with at least MIN_CDOF columns, R = trans(P) and the
      next level is R A P, with one row per aggregate. */
  ghost predicate Coarsened(k: Kernels, minCdof: int, minCoarse: int,
                            mats: seq<Matrix>, ps: seq<Matrix>, rs: seq<Matrix>, aggs: seq<AggResult>,
                            thetas: seq<real>, l: nat)
    requires l + 1 < |mats| && l + 1 < |thetas| && l < |ps| && l < |rs| && l < |aggs|
  {
    var g := aggs[l];
    && mats[l].rows > minCdof
    && g.status == Success && |g.lab| == mats[l].rows && LabelsIn(g.lab, g.numAgg)
    && thetas[l + 1] == ThetaUpdate(thetas[l], g.numAgg, mats[l].rows)
    && ps[l] == Prolongation.Prolongator(g.lab, g.numAgg, Prolongation.Ones(|g.lab|))
    && ps[l].cols == g.numAgg >= minCoarse
    && rs[l] == k.trans(ps[l])
    && mats[l + 1] == k.rap(rs[l], mats[l], ps[l])
    && mats[l + 1].rows == g.numAgg <= mats[l].rows
  }

  /** aggs[l] is what the aggregation call returns on level l. */
  ghost predicate ChosenBy(k: Kernels, prm: Params, minCoarse: int, mats: seq<Matrix>, aggs: seq<AggResult>,
                           thetas: seq<real>, l: nat)
    requires Sound(k) && l < |mats| && l < |thetas| && l < |aggs| && ValidSquare(mats[l])
  {
    aggs[l] == Aggregate(k, prm, thetas[l], mats[l], minCoarse)
  }

  /** The levels built so far: all square and valid, the first is the input,
      each further one coarsened from the one before. */
  ghost predicate Built(k: Kernels, prm: Params, minCdof: int, minCoarse: int, a0: Matrix,
                        mats: seq<Matrix>, ps: seq<Matrix>, rs: seq<Matrix>, aggs: seq<AggResult>,
                        thetas: seq<real>)
    requires Sound(k)
  {
    && |mats| >= 1 && |thetas| == |mats| && |ps| == |rs| == |aggs| == |mats| - 1
    && mats[0] == a0 && thetas[0] == prm.theta
    && (forall l :: 0 <= l < |mats| ==> ValidSquare(mats[l]))
    && (forall l :: 0 <= l < |mats| - 1 ==> Coarsened(k, minCdof, minCoarse, mats, ps, rs, aggs, thetas, l))
    && (forall l :: 0 <= l < |mats| - 1 ==> ChosenBy(k, prm, minCoarse, mats, aggs, thetas, l))
  }

  /** Work-vector lengths: the fine level gets m, every coarser level two
      (three for the nonlinear AMLI cycle) times its row count. */
  function Workspace(mats: seq<Matrix>, m: nat, nlAmli: bool): (w: seq<int>)
    requires |mats| >= 1
  {
    [m] + seq(|mats| - 1, l requires 0 <= l < |mats| - 1 => (if nlAmli then 3 else 2) * mats[l + 1].rows)
  }

  /** Appending a level leaves the earlier levels coarsened as before. */
  lemma CoarsenedKept(k: Kernels, minCdof: int, minCoarse: int,
                      mats: seq<Matrix>, ps: seq<Matrix>, rs: seq<Matrix>, aggs: seq<AggResult>,
                      thetas: seq<real>, p: Matrix, r: Matrix, ac: Matrix, g: AggResult, theta': real, l: nat)
    requires |thetas| == |mats| && |ps| == |rs| == |aggs| == |mats| - 1 && l + 1 < |mats|
    requires Coarsened(k, minCdof, minCoarse, mats, ps, rs, aggs, thetas, l)
    ensures Coarsened(k, minCdof, minCoarse, mats + [ac], ps + [p], rs + [r], aggs + [g], thetas + [theta'], l)
  {
    var mats', ps', rs', aggs', thetas' := mats + [ac], ps + [p], rs + [r], aggs + [g], thetas + [theta'];
    assert mats'[l] == mats[l] && mats'[l + 1] == mats[l + 1] && thetas'[l] == thetas[l] && thetas'[l + 1] == thetas[l + 1];
    assert ps'[l] == ps[l] && rs'[l] == rs[l] && aggs'[l] == aggs[l];
  }

  lemma ChosenKept(k: Kernels, prm: Params, minCoarse: int, mats: seq<Matrix>, aggs: seq<AggResult>,
                   thetas: seq<real>, ac: Matrix, g: AggResult, theta': real, l: nat)
    requires Sound(k) && l < |mats| && l < |thetas| && l < |aggs| && ValidSquare(mats[l])
    requires ChosenBy(k, prm, minCoarse, mats, aggs, thetas, l)
    ensures ChosenBy(k, prm, minCoarse, mats + [ac], aggs + [g], thetas + [theta'], l)
  {
    assert (mats + [ac])[l] == mats[l] && (aggs + [g])[l] == aggs[l] && (thetas + [theta'])[l] == thetas[l];
  }

  /** Appending a level coarsened as the loop body does it keeps the
      hierarchy well built. */
  lemma BuiltExtend(k: Kernels, prm: Params, minCdof: int, minCoarse: int, a0: Matrix,
                    mats: seq<Matrix>, ps: seq<Matrix>, rs: seq<Matrix>, aggs: seq<AggResult>,
                    thetas: seq<real>, p: Matrix, r: Matrix, ac: Matrix, g: AggResult, theta': real)
    requires Sound(k) && Built(k, prm, minCdof, minCoarse, a0, mats, ps, rs, aggs, thetas)
    requires ValidSquare(ac)
    requires Coarsened(k, minCdof, minCoarse, mats + [ac], ps + [p], rs + [r], aggs + [g], thetas + [theta'], |mats| - 1)
    requires ChosenBy(k, prm, minCoarse, mats + [ac], aggs + [g], thetas + [theta'], |mats| - 1)
    ensures Built(k, prm, minCdof, minCoarse, a0, mats + [ac], ps + [p], rs + [r], aggs + [g], thetas + [theta'])
  {
    var mats', ps', rs', aggs', thetas' := mats + [ac], ps + [p], rs + [r], aggs + [g], thetas + [theta'];
    forall l | 0 <= l < |mats'| - 1 ensures Coarsened(k, minCdof, minCoarse, mats', ps', rs', aggs', thetas', l) {
      if l < |mats| - 1 {
        CoarsenedKept(k, minCdof, minCoarse, mats, ps, rs, aggs, thetas, p, r, ac, g, theta', l);
      }
    }
    forall l | 0 <= l < |mats'| - 1 ensures ChosenBy(k, prm, minCoarse, mats', aggs', thetas', l) {
      if l < |mats| - 1 {
        ChosenKept(k, prm, minCoarse, mats, aggs, thetas, ac, g, theta', l);
      }
    }
  }

  /** Outcome of one pass of the loop body. */
  datatype Step =
    | Next(agg: AggResult, p: Matrix, r: Matrix, ac: Matrix, theta': real)
    | Halt(stop: Stop, theta': real)

  /** What one pass of the loop body on level matrix a with threshold theta
      yields: it stops with the type error exactly when the aggregation type is
      unknown, with AggregationFailed exactly when the aggregation fails, and
      with TooFewCoarse exactly when it succeeds with fewer than MIN_CDOF
      aggregates (these two after adapting the threshold); otherwise it
      delivers the aggregation, the adapted threshold, P, R and the coarse
      matrix. */
  ghost predicate StepOf(k: Kernels, prm: Params, theta: real, a: Matrix, minCoarse: int, st: Step)
    requires ValidSquare(a) && Sound(k)
  {
    var agg := Aggregate(k, prm, theta, a, minCoarse);
    && (st.Halt? && st.stop == UnknownAggType <==> agg.status == ErrorAmgAggType)
    && (st.Halt? && st.stop == AggregationFailed <==> agg.status == ErrorAmgCoarsening)
    && (st.Halt? && st.stop == TooFewCoarse <==> agg.status == Success && agg.numAgg < minCoarse)
    && (st.Halt? ==> st.stop in {UnknownAggType, AggregationFailed, TooFewCoarse})
    && (st.Halt? && st.stop != UnknownAggType ==> st.theta' == ThetaUpdate(theta, agg.numAgg, a.rows))
    && (st.Next? ==>
          && st.agg == agg && agg.status == Success && |agg.lab| == a.rows && LabelsIn(agg.lab, agg.numAgg)
          && st.theta' == ThetaUpdate(theta, agg.numAgg, a.rows)
          && st.p == Prolongation.Prolongator(agg.lab, agg.numAgg, Prolongation.Ones(|agg.lab|))
          && st.p.cols == agg.numAgg >= minCoarse
          && st.r == k.trans(st.p) && st.ac == k.rap(st.r, a, st.p)
          && st.ac.rows == agg.numAgg <= a.rows && ValidSquare(st.ac))
  }

  /** One pass of the loop body on level matrix a with threshold theta:
      aggregate, adapt the threshold, then either stop or form P, R and the
      coarse matrix. m is the fine size (the length of the near-kernel vector). */
  method CoarsenLevel(a: Matrix, prm: Params, k: Kernels, theta: real, minCoarse: int, m: nat) returns (st: Step)
    requires ValidSquare(a) && Sound(k) && a.rows <= m
    ensures StepOf(k, prm, theta, a, minCoarse, st)
    ensures st.Halt? && st.stop == UnknownAggType <==> prm.aggType == UnknownAgg
  {
    var agg := Aggregate(k, prm, theta, a, minCoarse);
    AggregateFacts(k, prm, theta, a, minCoarse);
    if agg.status == ErrorAmgAggType {
      // check_error reports the wrong aggregation type and ends the run
      return Halt(UnknownAggType, theta);
    }
    var theta' := ThetaUpdate(theta, agg.numAgg, a.rows);
    if agg.status != Success {
      // the coarsening error ends the loop; the status is reset to SUCCESS
      return Halt(AggregationFailed, theta');
    }
    Prolongation.TentativeWithOnes(agg.lab, agg.numAgg, m);
    var p := Prolongation.FormTentativeP(agg.lab, agg.numAgg, Prolongation.Ones(m));
    if p.cols < minCoarse {
      return Halt(TooFewCoarse, theta');
    }
    var r := k.trans(p);
    var ac := k.rap(r, a, p);
    st := Next(agg, p, r, ac, theta');
  }

  /** A pass that delivers a level extends the hierarchy. */
  lemma NextBuilt(k: Kernels, prm: Params, minCdof: int, minCoarse: int, a0: Matrix,
                  mats: seq<Matrix>, ps: seq<Matrix>, rs: seq<Matrix>, aggs: seq<AggResult>,
                  thetas: seq<real>, st: Step)
    requires Sound(k) && Built(k, prm, minCdof, minCoarse, a0, mats, ps, rs, aggs, thetas)
    requires mats[|mats| - 1].rows > minCdof && st.Next?
    requires StepOf(k, prm, thetas[|mats| - 1], mats[|mats| - 1], minCoarse, st)
    ensures Built(k, prm, minCdof, minCoarse, a0, mats + [st.ac], ps + [st.p], rs + [st.r], aggs + [st.agg], thetas + [st.theta'])
    ensures st.ac.rows <= mats[|mats| - 1].rows
  {
    var l := |mats| - 1;
    var mats', ps', rs', aggs', thetas' := mats + [st.ac], ps + [st.p], rs + [st.r], aggs + [st.agg], thetas + [st.theta'];
    assert mats'[l] == mats[l] && thetas'[l] == thetas[l];
    assert Coarsened(k, minCdof, minCoarse, mats', ps', rs', aggs', thetas', l);
    assert ChosenBy(k, prm, minCoarse, mats', aggs', thetas', l);
    BuiltExtend(k, prm, minCdof, minCoarse, a0, mats, ps, rs, aggs, thetas, st.p, st.r, st.ac, st.agg, st.theta');
  }

  /** Why the loop ends at level matrix a with threshold theta and the given
      number of levels: the loop guard fails on the size (SmallEnough) or on
      the level budget (LevelLimit), or the guard holds and the pass fails
      (AggregationFailed) or finds too few aggregates (TooFewCoarse). In every
      other case the pass either reports the type error or goes on to the
      next level, so none of the four applies (UnknownAggType). */
  function StopReason(k: Kernels, prm: Params, minCdof: int, minCoarse: int, a: Matrix, theta: real, levels: int): Stop
    requires ValidSquare(a) && Sound(k)
  {
    if a.rows <= minCdof then SmallEnough
    else if !(levels - 1 < prm.maxLevels - 1) then LevelLimit
    else
      var agg := Aggregate(k, prm, theta, a, minCoarse);
      if agg.status == ErrorAmgCoarsening then AggregationFailed
      else if agg.status == Success && agg.numAgg < minCoarse then TooFewCoarse
      else UnknownAggType
  }

  /** The threshold written back when the loop stops for the given reason:
      the last level's, adapted once more when the pass on it aggregated
      before stopping. */
  function FinalTheta(k: Kernels, prm: Params, minCoarse: int, a: Matrix, theta: real, stop: Stop): real
    requires ValidSquare(a) && Sound(k)
  {
    if stop == AggregationFailed || stop == TooFewCoarse
    then ThetaUpdate(theta, Aggregate(k, prm, theta, a, minCoarse).numAgg, a.rows)
    else theta
  }

  /** How the loop ended, in terms of the last level built. */
  ghost predicate StoppedAt(k: Kernels, prm: Params, minCdof: int, minCoarse: int, h: Hierarchy)
    requires Sound(k) && 1 <= h.numLevels == |h.a| == |h.thetas| && ValidSquare(h.a[h.numLevels - 1])
  {
    var last := h.a[h.numLevels - 1];
    var theta := h.thetas[h.numLevels - 1];
    && h.stop == StopReason(k, prm, minCdof, minCoarse, last, theta, h.numLevels)
    && h.theta == FinalTheta(k, prm, minCoarse, last, theta, h.stop)
  }

  /** What the setup returns. The status is the type error exactly when the
      aggregation type is unknown and the loop is entered (check_error ends
      the run); otherwise it is SUCCESS, even when a coarsening step failed.
      A successful run yields at least one level and at most max_levels when
      it coarsened at all, a hierarchy built level by level from the input,
      the work-vector lengths, and the reason the loop stopped: one of the
      guard's two tests or the pass's two exits, so a successful run never
      ends at a level the loop would have gone on to coarsen. */
  ghost predicate SetupPost(a0: Matrix, prm: Params, k: Kernels, minCoarse: int, h: Hierarchy)
    requires ValidSquare(a0) && Sound(k)
  {
    var minCdof := MinCdof(prm.coarseDof);
    && (h.status == Success || h.status == ErrorAmgAggType)
    && (h.status == ErrorAmgAggType <==> prm.aggType == UnknownAgg && a0.rows > minCdof && prm.maxLevels > 1)
    && (h.status == Success ==>
          && 1 <= h.numLevels == |h.a| == |h.thetas| && (h.numLevels == 1 || h.numLevels <= prm.maxLevels)
          && Built(k, prm, minCdof, minCoarse, a0, h.a, h.p, h.r, h.aggs, h.thetas)
          && h.work == Workspace(h.a, a0.rows, prm.nlAmli)
          && h.stop != UnknownAggType
          && StoppedAt(k, prm, minCdof, minCoarse, h))
  }

  /** A run that stops with status SUCCESS on a built hierarchy, for the
      reason StopReason names and with the threshold FinalTheta gives, meets
      the setup's postcondition. */
  lemma StopPost(a0: Matrix, prm: Params, k: Kernels, minCoarse: int,
                 mats: seq<Matrix>, ps: seq<Matrix>, rs: seq<Matrix>, aggs: seq<AggResult>,
                 thetas: seq<real>, theta': real, stop: Stop, h: Hierarchy)
    requires ValidSquare(a0) && Sound(k)
    requires var minCdof := MinCdof(prm.coarseDof);
      && Built(k, prm, minCdof, minCoarse, a0, mats, ps, rs, aggs, thetas)
      && (|mats| == 1 || |mats| <= prm.maxLevels)
      && !(prm.aggType == UnknownAgg && a0.rows > minCdof && prm.maxLevels > 1)
    requires stop != UnknownAggType
    requires stop == StopReason(k, prm, MinCdof(prm.coarseDof), minCoarse, mats[|mats| - 1], thetas[|mats| - 1], |mats|)
    requires theta' == FinalTheta(k, prm, minCoarse, mats[|mats| - 1], thetas[|mats| - 1], stop)
    requires h == Hierarchy(Success, mats, ps, rs, aggs, thetas, theta', |mats|, Workspace(mats, a0.rows, prm.nlAmli), stop)
    ensures SetupPost(a0, prm, k, minCoarse, h)
  {
    assert h.a == mats && h.thetas == thetas && h.numLevels == |mats|;
    StoppedOf(k, prm, MinCdof(prm.coarseDof), minCoarse, h, mats[|mats| - 1], thetas[|mats| - 1]);
  }

  lemma StoppedOf(k: Kernels, prm: Params, minCdof: int, minCoarse: int, h: Hierarchy, a: Matrix, theta: real)
    requires Sound(k) && 1 <= h.numLevels == |h.a| == |h.thetas| && ValidSquare(a)
    requires h.a[h.numLevels - 1] == a && h.thetas[h.numLevels - 1] == theta
    requires h.stop == StopReason(k, prm, minCdof, minCoarse, a, theta, h.numLevels)
    requires h.theta == FinalTheta(k, prm, minCoarse, a, theta, h.stop)
    ensures StoppedAt(k, prm, minCdof, minCoarse, h)
  {
  }

  /** A pass that halts on a valid aggregation type with the loop guard
      holding stops for the reason StopReason names and writes back the
      threshold FinalTheta gives. */
  lemma HaltCause(k: Kernels, prm: Params, minCdof: int, minCoarse: int, a: Matrix, theta: real, levels: int, st: Step)
    requires ValidSquare(a) && Sound(k) && StepOf(k, prm, theta, a, minCoarse, st)
    requires a.rows > minCdof && levels - 1 < prm.maxLevels - 1
    requires st.Halt? && st.stop != UnknownAggType
    ensures st.stop == StopReason(k, prm, minCdof, minCoarse, a, theta, levels)
    ensures st.theta' == FinalTheta(k, prm, minCoarse, a, theta, st.stop)
  {
  }

  /** When the loop guard fails the loop stops on the size or on the level
      budget, and the threshold is written back unchanged. */
  lemma GuardStop(k: Kernels, prm: Params, minCdof: int, minCoarse: int, a: Matrix, theta: real, levels: int)
    requires ValidSquare(a) && Sound(k) && !(a.rows > minCdof && levels - 1 < prm.maxLevels - 1)
    ensures var stop := StopReason(k, prm, minCdof, minCoarse, a, theta, levels);
      && stop == (if a.rows <= minCdof then SmallEnough else LevelLimit)
      && FinalTheta(k, prm, minCoarse, a, theta, stop) == theta
  {
  }

  /** The loop body on the last level built: one pass, and when it delivers
      a level, the hierarchy extended by it is still built level by level. */
  method NextLevel(a0: Matrix, prm: Params, k: Kernels, minCdof: int, minCoarse: int, m: nat,
                   mats: seq<Matrix>, ps: seq<Matrix>, rs: seq<Matrix>, aggs: seq<AggResult>,
                   thetas: seq<real>) returns (st: Step)
    requires Sound(k) && Built(k, prm, minCdof, minCoarse, a0, mats, ps, rs, aggs, thetas)
    requires mats[|mats| - 1].rows > minCdof && |mats| - 1 < prm.maxLevels - 1 && mats[|mats| - 1].rows <= m
    ensures st.Halt? && st.stop == UnknownAggType <==> prm.aggType == UnknownAgg
    ensures st.Halt? && st.stop != UnknownAggType ==>
      && st.stop == StopReason(k, prm, minCdof, minCoarse, mats[|mats| - 1], thetas[|mats| - 1], |mats|)
      && st.theta' == FinalTheta(k, prm, minCoarse, mats[|mats| - 1], thetas[|mats| - 1], st.stop)
    ensures st.Next? ==> Built(k, prm, minCdof, minCoarse, a0, mats + [st.ac], ps + [st.p], rs + [st.r], aggs + [st.agg], thetas + [st.theta'])
    ensures st.Next? ==> st.ac.rows <= mats[|mats| - 1].rows && st.theta' == (thetas + [st.theta'])[|mats|]
  {
    st := CoarsenLevel(mats[|mats| - 1], prm, k, thetas[|mats| - 1], minCoarse, m);
    if st.Next? {
      NextBuilt(k, prm, minCdof, minCoarse, a0, mats, ps, rs, aggs, thetas, st);
    } else if st.stop != UnknownAggType {
      HaltCause(k, prm, minCdof, minCoarse, mats[|mats| - 1], thetas[|mats| - 1], |mats|, st);
    }
  }

  /** The run ends at once when the aggregation type is unknown. */
  lemma ErrorPost(a0: Matrix, prm: Params, k: Kernels, minCoarse: int, h: Hierarchy)
    requires ValidSquare(a0) && Sound(k)
    requires prm.aggType == UnknownAgg && a0.rows > MinCdof(prm.coarseDof) && prm.maxLevels > 1
    requires h == Hierarchy(ErrorAmgAggType, [a0], [], [], [], [prm.theta], prm.theta, 1, [a0.rows], UnknownAggType)
    ensures SetupPost(a0, prm, k, minCoarse, h)
  {
  }

  /** The run ends at a pass that stopped: either the type error, or a
      failed or too small coarsening, which ends the loop with status SUCCESS. */
  method Finish(a0: Matrix, prm: Params, k: Kernels, minCoarse: int,
                mats: seq<Matrix>, ps: seq<Matrix>, rs: seq<Matrix>, aggs: seq<AggResult>,
                thetas: seq<real>, st: Step) returns (h: Hierarchy)
    requires ValidSquare(a0) && Sound(k)
    requires var minCdof := MinCdof(prm.coarseDof);
      && Built(k, prm, minCdof, minCoarse, a0, mats, ps, rs, aggs, thetas)
      && (|mats| == 1 || |mats| <= prm.maxLevels)
      && mats[|mats| - 1].rows > minCdof && |mats| - 1 < prm.maxLevels - 1
      && (prm.aggType == UnknownAgg ==> |mats| == 1)
    requires st.Halt? && (st.stop == UnknownAggType <==> prm.aggType == UnknownAgg)
    requires st.stop != UnknownAggType ==>
      && st.stop == StopReason(k, prm, MinCdof(prm.coarseDof), minCoarse, mats[|mats| - 1], thetas[|mats| - 1], |mats|)
      && st.theta' == FinalTheta(k, prm, minCoarse, mats[|mats| - 1], thetas[|mats| - 1], st.stop)
    ensures SetupPost(a0, prm, k, minCoarse, h)
  {
    if st.stop == UnknownAggType {
      // check_error reports the wrong aggregation type and ends the run
      h := Hierarchy(ErrorAmgAggType, [a0], [], [], [], [prm.theta], prm.theta, 1, [a0.rows], UnknownAggType);
      ErrorPost(a0, prm, k, minCoarse, h);
      return;
    }
    h := Hierarchy(Success, mats, ps, rs, aggs, thetas, st.theta', |mats|, Workspace(mats, a0.rows, prm.nlAmli), st.stop);
    StopPost(a0, prm, k, minCoarse, mats, ps, rs, aggs, thetas, st.theta', st.stop, h);
  }

  /** amg_setup_unsmoothP_unsmoothR. minCoarse is the MIN_CDOF constant. */
  method AmgSetupUnsmoothed(a0: Matrix, prm: Params, k: Kernels, minCoarse: int) returns (h: Hierarchy)
    requires ValidSquare(a0) && Sound(k)
    ensures SetupPost(a0, prm, k, minCoarse, h)
  {
    var minCdof := MinCdof(prm.coarseDof);
    var m := a0.rows;
    var mats := [a0];
    var ps: seq<Matrix> := [];
    var rs: seq<Matrix> := [];
    var aggs: seq<AggResult> := [];
    var thetas := [prm.theta];
    var lvl := 0;
    while mats[lvl].rows > minCdof && lvl < prm.maxLevels - 1
      invariant lvl + 1 == |mats| && Built(k, prm, minCdof, minCoarse, a0, mats, ps, rs, aggs, thetas)
      invariant mats[lvl].rows <= m
      invariant lvl == 0 || lvl < prm.maxLevels
      invariant prm.aggType == UnknownAgg ==> lvl == 0
      decreases prm.maxLevels - lvl
    {
      var st := NextLevel(a0, prm, k, minCdof, minCoarse, m, mats, ps, rs, aggs, thetas);
      if st.Halt? {
        h := Finish(a0, prm, k, minCoarse, mats, ps, rs, aggs, thetas, st);
        return;
      }
      mats := mats + [st.ac];
      ps := ps + [st.p];
      rs := rs + [st.r];
      aggs := aggs + [st.agg];
      thetas := thetas + [st.theta'];
      lvl := lvl + 1;
    }
    var stop := if mats[lvl].rows <= minCdof then SmallEnough else LevelLimit;
    h := Hierarchy(Success, mats, ps, rs, aggs, thetas, thetas[lvl], lvl + 1, Workspace(mats, m, prm.nlAmli), stop);
    GuardStop(k, prm, minCdof, minCoarse, mats[lvl], thetas[lvl], lvl + 1);
    StopPost(a0, prm, k, minCoarse, mats, ps, rs, aggs, thetas, thetas[lvl], stop, h);
  }

  /** The work vectors have one entry per level: m on the fine level and two
      (three for the nonlinear AMLI cycle) times the rows on every other. */
  lemma WorkspaceSizes(mats: seq<Matrix>, m: nat, nlAmli: bool)
    requires |mats| >= 1
    ensures var w := Workspace(mats, m, nlAmli);
      && |w| == |mats| && w[0] == m
      && forall l :: 1 <= l < |mats| ==> w[l] == (if nlAmli then 3 else 2) * mats[l].rows
  {
  }

  /** Coarsening never adds rows: each level has at most as many rows as
      every finer one. */
  lemma {:induction false} LevelsShrink(k: Kernels, prm: Params, minCdof: int, minCoarse: int, a0: Matrix,
                                        mats: seq<Matrix>, ps: seq<Matrix>, rs: seq<Matrix>, aggs: seq<AggResult>,
                                        thetas: seq<real>, l: nat, l': nat)
    requires Sound(k) && Built(k, prm, minCdof, minCoarse, a0, mats, ps, rs, aggs, thetas)
    requires l <= l' < |mats|
    ensures mats[l'].rows <= mats[l].rows
    decreases l' - l
  {
    if l < l' {
      LevelsShrink(k, prm, minCdof, minCoarse, a0, mats, ps, rs, aggs, thetas, l, l' - 1);
      assert Coarsened(k, minCdof, minCoarse, mats, ps, rs, aggs, thetas, l' - 1);
    }
  }
}
