/** Heavy-edge aggregation (aggregation_hec) on the filtered graph of strong
    couplings. Vertices are visited in a given order (the routine shuffles
    0 .. n-1; the shuffle is an input here). A vertex whose filtered row has a
    single entry is isolated (UNPT). Any other vertex picks the first
    off-diagonal entry of largest magnitude in its row: if that neighbour is
    still unassigned, both form a new aggregate; otherwise the vertex takes
    the neighbour's label. Aggregate sizes are not bounded. */
module AggregationHec {
  import opened Csr
  import opened Labels
  import Strength

  /** Labels and aggregate count during the main loop. */
  datatype Hec = Hec(lab: seq<int>, numAgg: nat)

  /** Position k of row i is the heaviest off-diagonal entry: nonzero, at least
      as large in magnitude as every off-diagonal entry of the row, and strictly
      larger than every earlier one. */
  predicate Heaviest(g: Matrix, i: nat, k: int)
    requires Valid(g) && i < g.rows
  {
    && g.ia[i] <= k < g.ia[i + 1] && g.entries[k].col != i && Strength.Abs(g.entries[k].val) > 0.0
    && (forall q :: g.ia[i] <= q < g.ia[i + 1] && g.entries[q].col != i ==>
          Strength.Abs(g.entries[q].val) <= Strength.Abs(g.entries[k].val))
    && (forall q :: g.ia[i] <= q < k && g.entries[q].col != i ==>
          Strength.Abs(g.entries[q].val) < Strength.Abs(g.entries[k].val))
  }

  /** The search loop over row i from position p, with the best position so far
      and its magnitude (0 before any update). The position is None when no
      update happened: the routine's k is then left uninitialised. */
  function Scan(g: Matrix, i: nat, p: int, best: Option<int>, maxval: real): (r: Option<int>)
    requires Valid(g) && i < g.rows && g.ia[i] <= p <= g.ia[i + 1]
    requires best.None? ==> maxval == 0.0 && forall q :: g.ia[i] <= q < p && g.entries[q].col != i ==> g.entries[q].val == 0.0
    requires best.Some? ==> (
      && g.ia[i] <= best.value < p && g.entries[best.value].col != i
      && maxval == Strength.Abs(g.entries[best.value].val) && maxval > 0.0
      && (forall q :: g.ia[i] <= q < p && g.entries[q].col != i ==> Strength.Abs(g.entries[q].val) <= maxval)
      && (forall q :: g.ia[i] <= q < best.value && g.entries[q].col != i ==> Strength.Abs(g.entries[q].val) < maxval))
    ensures r.Some? ==> Heaviest(g, i, r.value)
    ensures r.None? ==> forall q :: g.ia[i] <= q < g.ia[i + 1] && g.entries[q].col != i ==> g.entries[q].val == 0.0
    decreases g.ia[i + 1] - p
  {
    if p == g.ia[i + 1] then best
    else
      var e := g.entries[p];
      if e.col != i && Strength.Abs(e.val) > maxval then Scan(g, i, p + 1, Some(p), Strength.Abs(e.val))
      else Scan(g, i, p + 1, best, maxval)
  }

  /** The heaviest off-diagonal position of row i, if the row has a nonzero
      off-diagonal entry. */
  function HeaviestPos(g: Matrix, i: nat): (r: Option<int>)
    requires Valid(g) && i < g.rows
  {
    Scan(g, i, g.ia[i], None, 0.0)
  }

  /** The heaviest position is unique: the search result is the only position
      meeting the definition. */
  lemma HeaviestUnique(g: Matrix, i: nat, k: int, k': int)
    requires Valid(g) && i < g.rows && Heaviest(g, i, k) && Heaviest(g, i, k')
    ensures k == k'
  {
  }

  /** The search finds a position exactly when the row has a nonzero
      off-diagonal entry, and that position is the heaviest. */
  lemma HeaviestPosSpec(g: Matrix, i: nat)
    requires Valid(g) && i < g.rows
    ensures HeaviestPos(g, i).Some? <==> HasHeavy(g, i)
    ensures HeaviestPos(g, i).Some? ==> Heaviest(g, i, HeaviestPos(g, i).value)
  {
    var r := HeaviestPos(g, i);
    if r.Some? {
      var k := r.value;
      assert g.entries[k].val != 0.0;
    }
  }

  /** Row i has a nonzero off-diagonal entry. */
  ghost predicate HasHeavy(g: Matrix, i: nat)
    requires Valid(g) && i < g.rows
  {
    exists q :: g.ia[i] <= q < g.ia[i + 1] && g.entries[q].col != i && g.entries[q].val != 0.0
  }

  /** Every row other than a one-entry row has a nonzero off-diagonal entry,
      so the search always sets k. */
  ghost predicate HecReady(g: Matrix)
    requires Valid(g)
  {
    forall i :: 0 <= i < g.rows && RowLen(g, i) != 1 ==> HasHeavy(g, i)
  }

  /** The main loop at vertex i. */
  function HecVertex(g: Matrix, st: Hec, i: nat): (r: Hec)
    requires ValidSquare(g) && i < g.rows && |st.lab| == g.rows
    ensures |r.lab| == g.rows
  {
    if RowLen(g, i) == 1 then Hec(st.lab[i := Unpt], st.numAgg)
    else
      match HeaviestPos(g, i)
      case None => st
      case Some(k) =>
        var j := g.entries[k].col;
        if st.lab[j] < Unpt then Hec(st.lab[j := st.numAgg][i := st.numAgg], st.numAgg + 1)
        else Hec(st.lab[i := st.lab[j]], st.numAgg)
  }

  /** Every entry of perm names a vertex. */
  predicate InRange(perm: seq<int>, n: nat) {
    forall t :: 0 <= t < |perm| ==> 0 <= perm[t] < n
  }

  /** perm lists each of 0 .. n-1 exactly once. */
  predicate IsPermutation(perm: seq<int>, n: nat) {
    && |perm| == n && InRange(perm, n)
    && (forall s, t :: 0 <= s < t < |perm| ==> perm[s] != perm[t])
    && (forall v :: 0 <= v < n ==> v in perm)
  }

  function Start(n: nat): Hec {
    Hec(seq(n, _ => Unassigned), 0)
  }

  /** The state after the main loop has visited perm[0 .. t-1]. */
  function HecUpTo(g: Matrix, perm: seq<int>, t: nat): (r: Hec)
    requires ValidSquare(g) && InRange(perm, g.rows) && t <= |perm|
    ensures |r.lab| == g.rows
    decreases t
  {
    if t == 0 then Start(g.rows) else HecVertex(g, HecUpTo(g, perm, t - 1), perm[t - 1])
  }

  /** aggregation_hec on the filtered graph g, visiting vertices in perm order. */
  function HecOnGraph(g: Matrix, perm: seq<int>): (r: AggResult)
    requires ValidSquare(g) && InRange(perm, g.rows)
  {
    var st := HecUpTo(g, perm, |perm|);
    AggResult(Success, st.lab, st.numAgg)
  }

  /** aggregation_hec on a matrix: filter, then aggregate. */
  function AggregationHec(a: Matrix, diag: seq<real>, theta: real, perm: seq<int>): (r: AggResult)
    requires ValidSquare(a) && |diag| == a.rows && InRange(perm, a.rows)
  {
    HecOnGraph(Strength.StrongGraph(a, diag, theta), perm)
  }

  /** Some vertex among perm[0 .. t-1] carries label a. */
  ghost predicate Carried(lab: seq<int>, perm: seq<int>, t: nat, a: int)
    requires t <= |perm| && InRange(perm, |lab|)
  {
    exists s :: 0 <= s < t && lab[perm[s]] == a
  }

  /** What holds after the loop has visited perm[0 .. t-1]: labels are markers
      or ids below the count, every visited vertex is decided, every id is the
      label of a visited vertex, and every visited one-entry row is isolated. */
  ghost predicate HecInv(g: Matrix, perm: seq<int>, st: Hec, t: nat)
    requires ValidSquare(g) && InRange(perm, g.rows) && t <= |perm|
  {
    && |st.lab| == g.rows && LabelsIn(st.lab, st.numAgg)
    && (forall s :: 0 <= s < t ==> st.lab[perm[s]] >= Unpt)
    && (forall a :: 0 <= a < st.numAgg ==> Carried(st.lab, perm, t, a))
    && (forall s :: 0 <= s < t && RowLen(g, perm[s]) == 1 ==> st.lab[perm[s]] == Unpt)
  }

  /** perm[t] has not been visited before step t. */
  lemma Unvisited(perm: seq<int>, n: nat, t: nat)
    requires IsPermutation(perm, n) && t < |perm|
    ensures forall s :: 0 <= s < t ==> perm[s] != perm[t]
  {
  }

  /** Step t at a one-entry row. */
  lemma HecIsolatedStep(g: Matrix, perm: seq<int>, st: Hec, t: nat)
    requires ValidSquare(g) && IsPermutation(perm, g.rows) && t < |perm|
    requires HecInv(g, perm, st, t)
    ensures HecInv(g, perm, Hec(st.lab[perm[t] := Unpt], st.numAgg), t + 1)
  {
    var r := Hec(st.lab[perm[t] := Unpt], st.numAgg);
    Unvisited(perm, g.rows, t);
    var t1 := t + 1;
    forall a | 0 <= a < r.numAgg ensures Carried(r.lab, perm, t1, a) {
      assert Carried(st.lab, perm, t, a);
      var s :| 0 <= s < t && st.lab[perm[s]] == a;
      assert r.lab[perm[s]] == a;
    }
  }

  /** Step t when the heaviest neighbour j is still unassigned: both open a
      new aggregate. */
  lemma HecOpenStep(g: Matrix, perm: seq<int>, st: Hec, t: nat, j: int)
    requires ValidSquare(g) && IsPermutation(perm, g.rows) && t < |perm|
    requires HecInv(g, perm, st, t)
    requires 0 <= j < g.rows && j != perm[t] && st.lab[j] < Unpt && RowLen(g, perm[t]) != 1
    ensures HecInv(g, perm, Hec(st.lab[j := st.numAgg][perm[t] := st.numAgg], st.numAgg + 1), t + 1)
    ensures forall s :: 0 <= s < t ==> perm[s] != j
  {
    var r := Hec(st.lab[j := st.numAgg][perm[t] := st.numAgg], st.numAgg + 1);
    Unvisited(perm, g.rows, t);
    forall s | 0 <= s < t ensures perm[s] != j {
      assert st.lab[perm[s]] >= Unpt;
    }
    var t1 := t + 1;
    forall a | 0 <= a < r.numAgg ensures Carried(r.lab, perm, t1, a) {
      if a < st.numAgg {
        assert Carried(st.lab, perm, t, a);
        var s :| 0 <= s < t && st.lab[perm[s]] == a;
        assert r.lab[perm[s]] == a;
      } else {
        assert r.lab[perm[t]] == a;
      }
    }
  }

  /** Step t when the heaviest neighbour j is decided: the vertex copies its
      label. */
  lemma HecFollowStep(g: Matrix, perm: seq<int>, st: Hec, t: nat, j: int)
    requires ValidSquare(g) && IsPermutation(perm, g.rows) && t < |perm|
    requires HecInv(g, perm, st, t)
    requires 0 <= j < g.rows && st.lab[j] >= Unpt && RowLen(g, perm[t]) != 1
    ensures HecInv(g, perm, Hec(st.lab[perm[t] := st.lab[j]], st.numAgg), t + 1)
  {
    var r := Hec(st.lab[perm[t] := st.lab[j]], st.numAgg);
    Unvisited(perm, g.rows, t);
    var t1 := t + 1;
    forall a | 0 <= a < r.numAgg ensures Carried(r.lab, perm, t1, a) {
      assert Carried(st.lab, perm, t, a);
      var s :| 0 <= s < t && st.lab[perm[s]] == a;
      assert r.lab[perm[s]] == a;
    }
  }

  /** One step of the loop at a vertex not yet visited keeps the invariant
      and leaves every visited vertex alone. */
  lemma HecStep(g: Matrix, perm: seq<int>, st: Hec, t: nat)
    requires ValidSquare(g) && IsPermutation(perm, g.rows) && HecReady(g) && t < |perm|
    requires HecInv(g, perm, st, t)
    ensures HecInv(g, perm, HecVertex(g, st, perm[t]), t + 1)
    ensures forall s :: 0 <= s < t ==> HecVertex(g, st, perm[t]).lab[perm[s]] == st.lab[perm[s]]
  {
    var i := perm[t];
    Unvisited(perm, g.rows, t);
    if RowLen(g, i) == 1 {
      HecIsolatedStep(g, perm, st, t);
    } else {
      HeaviestPosSpec(g, i);
      var k := HeaviestPos(g, i).value;
      var j := g.entries[k].col;
      if st.lab[j] < Unpt {
        HecOpenStep(g, perm, st, t, j);
      } else {
        HecFollowStep(g, perm, st, t, j);
      }
    }
  }

  lemma HecStartInv(g: Matrix, perm: seq<int>)
    requires ValidSquare(g) && InRange(perm, g.rows)
    ensures HecInv(g, perm, Start(g.rows), 0)
  {
  }

  lemma HecUpToInv(g: Matrix, perm: seq<int>, t: nat)
    requires ValidSquare(g) && IsPermutation(perm, g.rows) && HecReady(g) && t <= |perm|
    ensures HecInv(g, perm, HecUpTo(g, perm, t), t)
  {
    var inv := (st: Hec, s: nat) => s <= |perm| && |st.lab| == g.rows && HecInv(g, perm, st, s);
    HecStartInv(g, perm);
    forall st: Hec, s: nat | s < t && |st.lab| == g.rows && inv(st, s)
      ensures inv(HecVertex(g, st, perm[s]), s + 1)
    {
      HecStep(g, perm, st, s);
    }
    HecUpToKeeps(g, perm, t, inv);
  }

  /** Induction over the loop for any invariant its steps keep. */
  lemma {:induction false} HecUpToKeeps(g: Matrix, perm: seq<int>, t: nat, inv: (Hec, nat) -> bool)
    requires ValidSquare(g) && InRange(perm, g.rows) && t <= |perm|
    requires inv(HecUpTo(g, perm, 0), 0)
    requires forall st: Hec, s: nat :: s < t && |st.lab| == g.rows && inv(st, s) ==> inv(HecVertex(g, st, perm[s]), s + 1)
    ensures inv(HecUpTo(g, perm, t), t)
  {
    if t > 0 {
      HecUpToKeeps(g, perm, t - 1, inv);
    }
  }

  /** Label of vertex v after the loop has visited perm[0 .. t-1]. */
  function LabelAt(g: Matrix, perm: seq<int>, t: nat, v: nat): int
    requires ValidSquare(g) && InRange(perm, g.rows) && t <= |perm| && v < g.rows
  {
    HecUpTo(g, perm, t).lab[v]
  }

  /** Step t - 1 leaves the vertices visited before it alone. */
  lemma HecStepKeepsAll(g: Matrix, perm: seq<int>, t: nat)
    requires ValidSquare(g) && IsPermutation(perm, g.rows) && HecReady(g) && 0 < t <= |perm|
    ensures forall s :: 0 <= s < t - 1 ==> HecUpTo(g, perm, t).lab[perm[s]] == HecUpTo(g, perm, t - 1).lab[perm[s]]
  {
    var prev := HecUpTo(g, perm, t - 1);
    HecUpToInv(g, perm, t - 1);
    HecVertexKeeps(g, perm, prev, t - 1);
  }

  /** A step only writes its own vertex and, when it opens an aggregate, an
      undecided neighbour; so decided visited vertices stay as they are. */
  lemma HecVertexKeeps(g: Matrix, perm: seq<int>, st: Hec, t: nat)
    requires ValidSquare(g) && IsPermutation(perm, g.rows) && t < |perm| && |st.lab| == g.rows
    requires forall s :: 0 <= s < t ==> st.lab[perm[s]] >= Unpt
    ensures forall s :: 0 <= s < t ==> HecVertex(g, st, perm[t]).lab[perm[s]] == st.lab[perm[s]]
  {
    Unvisited(perm, g.rows, t);
  }

  lemma HecStepKeeps(g: Matrix, perm: seq<int>, s: nat, t: nat)
    requires ValidSquare(g) && IsPermutation(perm, g.rows) && HecReady(g) && s + 1 < t <= |perm|
    ensures LabelAt(g, perm, t, perm[s]) == LabelAt(g, perm, t - 1, perm[s])
  {
    HecStepKeepsAll(g, perm, t);
  }

  /** A visited vertex keeps the label its own step gave it. */
  lemma {:induction false} HecStable(g: Matrix, perm: seq<int>, s: nat, t: nat)
    requires ValidSquare(g) && IsPermutation(perm, g.rows) && HecReady(g) && s < t <= |perm|
    ensures LabelAt(g, perm, t, perm[s]) == LabelAt(g, perm, s + 1, perm[s])
    decreases t
  {
    if t > s + 1 {
      HecStable(g, perm, s, t - 1);
      HecStepKeeps(g, perm, s, t);
    }
  }

  /** After the whole loop every vertex has been visited. */
  lemma HecFinal(g: Matrix, perm: seq<int>)
    requires ValidSquare(g) && IsPermutation(perm, g.rows) && HecReady(g)
    ensures var st := HecUpTo(g, perm, |perm|);
      && LabelsIn(st.lab, st.numAgg) && Covered(st.lab) && EveryIdUsed(st.lab, st.numAgg)
      && (forall v :: 0 <= v < g.rows && RowLen(g, v) == 1 ==> st.lab[v] == Unpt)
  {
    var n := |perm|;
    HecUpToInv(g, perm, n);
    var st := HecUpTo(g, perm, n);
    forall v | 0 <= v < g.rows ensures st.lab[v] >= Unpt && (RowLen(g, v) == 1 ==> st.lab[v] == Unpt) {
      assert v in perm;
      var s :| 0 <= s < n && perm[s] == v;
    }
    forall a | 0 <= a < st.numAgg ensures a in st.lab {
      assert Carried(st.lab, perm, n, a);
      var s :| 0 <= s < n && st.lab[perm[s]] == a;
    }
  }

  /** The routine always succeeds; with a visiting order that is a permutation
      and rows that let the search set k, every vertex ends decided, labels are
      UNPT or ids below the count, every id has a member, there are no more
      aggregates than vertices, and every one-entry row is isolated. */
  lemma HecFacts(g: Matrix, perm: seq<int>)
    requires ValidSquare(g) && IsPermutation(perm, g.rows) && HecReady(g)
    ensures var r := HecOnGraph(g, perm);
      && r.status == Success && |r.lab| == g.rows
      && LabelsIn(r.lab, r.numAgg) && Covered(r.lab) && EveryIdUsed(r.lab, r.numAgg)
      && r.numAgg <= g.rows
      && (forall v :: 0 <= v < g.rows && RowLen(g, v) == 1 ==> r.lab[v] == Unpt)
  {
    HecFinal(g, perm);
    var st := HecUpTo(g, perm, |perm|);
    IdsBoundedByVertices(st.lab, st.numAgg);
  }

  /** At step s, a vertex whose heaviest neighbour is already decided takes
      that neighbour's label. */
  lemma HecFollowLabel(g: Matrix, perm: seq<int>, s': nat, s: nat)
    requires ValidSquare(g) && IsPermutation(perm, g.rows) && HecReady(g) && s' < s < |perm|
    requires RowLen(g, perm[s]) != 1
    requires HeaviestPos(g, perm[s]).Some? && g.entries[HeaviestPos(g, perm[s]).value].col == perm[s']
    ensures LabelAt(g, perm, s + 1, perm[s]) == LabelAt(g, perm, s + 1, perm[s'])
  {
    HecUpToInv(g, perm, s);
    var st := HecUpTo(g, perm, s);
    assert st.lab[perm[s']] >= Unpt;
    Unvisited(perm, g.rows, s);
    assert HecUpTo(g, perm, s + 1) == HecVertex(g, st, perm[s]);
  }

  /** A vertex whose heaviest neighbour was visited before it ends with the
      same label as that neighbour: in its aggregate, or UNPT with it. */
  lemma HecJoinsVisited(g: Matrix, perm: seq<int>, s': nat, s: nat)
    requires ValidSquare(g) && IsPermutation(perm, g.rows) && HecReady(g) && s' < s < |perm|
    requires RowLen(g, perm[s]) != 1
    requires HeaviestPos(g, perm[s]).Some? && g.entries[HeaviestPos(g, perm[s]).value].col == perm[s']
    ensures var r := HecOnGraph(g, perm); r.lab[perm[s]] == r.lab[perm[s']]
  {
    var n := |perm|;
    HecFollowLabel(g, perm, s', s);
    HecStable(g, perm, s, n);
    HecStable(g, perm, s', n);
    HecStable(g, perm, s', s + 1);
    assert HecOnGraph(g, perm).lab == HecUpTo(g, perm, n).lab;
  }

  /** Step s at a vertex i whose row sets k, with heaviest neighbour j: if j is
      still unassigned, i and j form a new aggregate numbered by the count,
      whose only members are the two of them, and the count grows by one;
      otherwise i takes j's label and the count stays. No other vertex
      changes. */
  lemma HecPairStep(g: Matrix, perm: seq<int>, s: nat)
    requires ValidSquare(g) && IsPermutation(perm, g.rows) && s < |perm|
    requires RowLen(g, perm[s]) != 1 && HeaviestPos(g, perm[s]).Some?
    ensures var i := perm[s];
      var j := g.entries[HeaviestPos(g, i).value].col;
      var st := HecUpTo(g, perm, s);
      var r := HecUpTo(g, perm, s + 1);
      && j != i
      && (st.lab[j] < Unpt ==>
            && r.lab[i] == st.numAgg && r.lab[j] == st.numAgg && r.numAgg == st.numAgg + 1
            && Size(r.lab, st.numAgg) == 2)
      && (st.lab[j] >= Unpt ==> r.lab[i] == st.lab[j] && r.numAgg == st.numAgg)
      && (forall v :: 0 <= v < g.rows && v != i && v != j ==> r.lab[v] == st.lab[v])
      && r.lab[j] == (if st.lab[j] < Unpt then st.numAgg else st.lab[j])
  {
    var i := perm[s];
    var j := g.entries[HeaviestPos(g, i).value].col;
    var st := HecUpTo(g, perm, s);
    var n := st.numAgg;
    assert HecUpTo(g, perm, s + 1) == HecVertex(g, st, i);
    if st.lab[j] < Unpt {
      IdsCarriedUpTo(g, perm, s);
      assert n !in multiset(st.lab) by {
        assert forall v :: 0 <= v < |st.lab| ==> st.lab[v] != n;
      }
      var lab1 := st.lab[j := n];
      SizeUpdate(st.lab, j, n, n);
      SizeUpdate(lab1, i, n, n);
    }
  }

  /** The part of the invariant that holds for any visiting order without
      repeats, whether or not the search sets k: labels stay in range and
      every id is carried by a visited vertex. */
  ghost predicate IdsCarried(g: Matrix, perm: seq<int>, st: Hec, t: nat)
    requires ValidSquare(g) && InRange(perm, g.rows) && t <= |perm|
  {
    && |st.lab| == g.rows && LabelsIn(st.lab, st.numAgg)
    && (forall a :: 0 <= a < st.numAgg ==> Carried(st.lab, perm, t, a))
  }

  lemma IdsCarriedStep(g: Matrix, perm: seq<int>, st: Hec, t: nat)
    requires ValidSquare(g) && IsPermutation(perm, g.rows) && t < |perm|
    requires IdsCarried(g, perm, st, t)
    ensures IdsCarried(g, perm, HecVertex(g, st, perm[t]), t + 1)
  {
    var i := perm[t];
    var r := HecVertex(g, st, i);
    var t1 := t + 1;
    Unvisited(perm, g.rows, t);
    forall a | 0 <= a < r.numAgg ensures Carried(r.lab, perm, t1, a) {
      if a < st.numAgg {
        assert Carried(st.lab, perm, t, a);
        var s :| 0 <= s < t && st.lab[perm[s]] == a;
        assert r.lab[perm[s]] == a;
      } else {
        assert r.lab[perm[t]] == a;
      }
    }
  }

  lemma {:induction false} IdsCarriedUpTo(g: Matrix, perm: seq<int>, t: nat)
    requires ValidSquare(g) && IsPermutation(perm, g.rows) && t <= |perm|
    ensures IdsCarried(g, perm, HecUpTo(g, perm, t), t)
  {
    if t > 0 {
      var prev := HecUpTo(g, perm, t - 1);
      assert HecUpTo(g, perm, t) == HecVertex(g, prev, perm[t - 1]);
      IdsCarriedUpTo(g, perm, t - 1);
      IdsCarriedStep(g, perm, prev, t - 1);
    }
  }

  /** Even when a row leaves k unset, the labels are in range, every id has a
      member and there are no more aggregates than vertices. */
  lemma HecCounts(g: Matrix, perm: seq<int>)
    requires ValidSquare(g) && IsPermutation(perm, g.rows)
    ensures var r := HecOnGraph(g, perm);
      && r.status == Success && |r.lab| == g.rows
      && LabelsIn(r.lab, r.numAgg) && EveryIdUsed(r.lab, r.numAgg) && r.numAgg <= g.rows
  {
    var n := |perm|;
    IdsCarriedUpTo(g, perm, n);
    var st := HecUpTo(g, perm, n);
    forall a | 0 <= a < st.numAgg ensures a in st.lab {
      assert Carried(st.lab, perm, n, a);
      var s :| 0 <= s < n && st.lab[perm[s]] == a;
    }
    IdsBoundedByVertices(st.lab, st.numAgg);
  }

  /** A star with centre 0 and leaves 1 and 2, every coupling of weight 1. */
  function Star(): (a: Matrix)
    ensures ValidSquare(a)
  {
    Matrix(3, 3, [0, 3, 5, 7],
      [Entry(0, 2.0), Entry(1, -1.0), Entry(2, -1.0), Entry(0, -1.0), Entry(1, 2.0), Entry(0, -1.0), Entry(2, 2.0)])
  }

  lemma StarHeaviest()
    ensures HeaviestPos(Star(), 0) == Some(1)
    ensures HeaviestPos(Star(), 1) == Some(3)
    ensures HeaviestPos(Star(), 2) == Some(5)
  {
    var g := Star();
    assert Scan(g, 0, 3, Some(1), 1.0) == Some(1);
    assert Scan(g, 0, 2, Some(1), 1.0) == Some(1);
    assert Scan(g, 0, 1, None, 0.0) == Some(1);
    assert Scan(g, 1, 5, Some(3), 1.0) == Some(3);
    assert Scan(g, 1, 4, Some(3), 1.0) == Some(3);
    assert Scan(g, 2, 7, Some(5), 1.0) == Some(5);
    assert Scan(g, 2, 6, Some(5), 1.0) == Some(5);
  }

  /** Aggregates are not capped: visiting the star in order 0, 1, 2 puts all
      three vertices in one aggregate. */
  lemma HecUncapped()
    ensures HecOnGraph(Star(), [0, 1, 2]) == AggResult(Success, [0, 0, 0], 1)
    ensures Size(HecOnGraph(Star(), [0, 1, 2]).lab, 0) == 3
  {
    var g := Star();
    var perm := [0, 1, 2];
    StarHeaviest();
    var st0 := Start(3);
    assert st0.lab == [Unassigned, Unassigned, Unassigned];
    var st1 := Hec([0, 0, Unassigned], 1);
    assert HecVertex(g, st0, 0) == st1;
    assert HecUpTo(g, perm, 1) == st1;
    assert HecVertex(g, st1, 1) == st1;
    assert HecUpTo(g, perm, 2) == st1;
    var st3 := Hec([0, 0, 0], 1);
    assert HecVertex(g, st1, 2) == st3;
    assert HecUpTo(g, perm, 3) == st3;
    assert [0, 0, 0] == seq(3, _ => 0);
    SizeConstant(3, 0);
  }
}
