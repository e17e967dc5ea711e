/** Greedy aggregation of Vanek, Mandel and Brezina (aggregation_vmb) on the
    filtered graph of strong couplings.

    Every vertex starts unassigned (-2). Three sweeps follow:
      1. vertices n-1 .. 0: a vertex whose filtered row has a single entry is
         isolated (UNPT); a vertex whose row entries are all still unassigned
         seeds a new aggregate and absorbs its neighbours, up to the cap;
      2. vertices n-1 .. 0: an unassigned vertex joins the first neighbour, in
         storage order, whose aggregate from sweep 1 is still below the cap;
      3. while the counter num_left is positive, vertices 0 .. n-1: an
         unassigned vertex seeds a new aggregate of unassigned neighbours.
    The routine fails when sweep 1 forms fewer than MIN_CDOF aggregates.

    The sweeps are written as functions over an explicit state so that the
    counter num_left is modelled exactly as the routine keeps it. */
module AggregationVmb {
  import opened Csr
  import opened Labels
  import Strength

  /** State of sweeps 1 and 3: the labels, the number of aggregates so far and
      the counter num_left. */
  datatype Sweep = Sweep(lab: seq<int>, numAgg: nat, numLeft: int)

  /** One label per vertex of g, each a marker or an existing id. */
  predicate Fits(g: Matrix, s: Sweep) {
    ValidSquare(g) && |s.lab| == g.rows && LabelsIn(s.lab, s.numAgg)
  }

  /** The counter num_left never exceeds the number of vertices really left. */
  predicate CountBehind(s: Sweep) {
    s.numLeft <= Size(s.lab, Unassigned)
  }

  /** How far num_left has fallen below the true number of unassigned vertices. */
  function Drift(s: Sweep): int {
    Size(s.lab, Unassigned) - s.numLeft
  }

  // ---------------------------------------------------------------------------
  // Seeding an aggregate (shared by sweeps 1 and 3)
  // ---------------------------------------------------------------------------

  /** The absorbing loop over row i from storage position p: a neighbour other
      than i joins aggregate id while fewer than maxAgg members were counted.
      Sweep 3 (onlyFree) also requires the neighbour to be unassigned; sweep 1
      relies on the row having been checked beforehand. */
  function Absorb(g: Matrix, i: nat, maxAgg: int, onlyFree: bool, id: int, p: int, count: int, s: Sweep): (r: Sweep)
    requires ValidSquare(g) && i < g.rows && |s.lab| == g.rows
    requires g.ia[i] <= p <= g.ia[i + 1]
    ensures |r.lab| == g.rows && r.numAgg == s.numAgg
    decreases g.ia[i + 1] - p
  {
    if p == g.ia[i + 1] then s
    else
      var c := g.entries[p].col;
      if c != i && (!onlyFree || s.lab[c] < Unpt) && count < maxAgg then
        Absorb(g, i, maxAgg, onlyFree, id, p + 1, count + 1, Sweep(s.lab[c := id], s.numAgg, s.numLeft - 1))
      else
        Absorb(g, i, maxAgg, onlyFree, id, p + 1, count, s)
  }

  /** Vertex i seeds aggregate numAgg: it is labelled, counted, and absorbs its
      row; the aggregate count then grows by one. */
  function Seed(g: Matrix, i: nat, maxAgg: int, onlyFree: bool, s: Sweep): (r: Sweep)
    requires ValidSquare(g) && i < g.rows && |s.lab| == g.rows
    ensures |r.lab| == g.rows
  {
    var id := s.numAgg;
    var t := Absorb(g, i, maxAgg, onlyFree, id, g.ia[i], 1, Sweep(s.lab[i := id], id, s.numLeft - 1));
    Sweep(t.lab, id + 1, t.numLeft)
  }

  /** Column of storage position q. */
  function Col(g: Matrix, q: int): int
    requires Valid(g) && 0 <= q < |g.entries|
  {
    g.entries[q].col
  }

  /** Vertex w occurs as an off-diagonal column of row i at a position >= p. */
  predicate InRowFrom(g: Matrix, i: nat, p: int, w: int)
    requires Valid(g) && i < g.rows
  {
    exists q :: p <= q < g.ia[i + 1] && g.ia[i] <= q && g.entries[q].col == w && w != i
  }

  /** An off-diagonal vertex named at position p is named from p on. */
  lemma InRowFromHere(g: Matrix, i: nat, p: int)
    requires Valid(g) && i < g.rows && g.ia[i] <= p < g.ia[i + 1] && g.entries[p].col != i
    ensures InRowFrom(g, i, p, g.entries[p].col)
  {
    assert p <= p < g.ia[i + 1] && g.ia[i] <= p && g.entries[p].col == g.entries[p].col;
  }

  /** A vertex named from p + 1 on is named from p on. */
  lemma InRowFromStep(g: Matrix, i: nat, p: int, w: int)
    requires Valid(g) && i < g.rows && g.ia[i] <= p
    requires InRowFrom(g, i, p + 1, w)
    ensures InRowFrom(g, i, p, w)
  {
    var q :| p + 1 <= q < g.ia[i + 1] && g.ia[i] <= q && g.entries[q].col == w && w != i;
    assert p <= q;
  }

  /** Sweep 1's absorbing writes may only meet unassigned vertices or vertices
      already in the aggregate being formed. */
  predicate WritableRest(g: Matrix, i: nat, p: int, id: int, lab: seq<int>)
    requires ValidSquare(g) && i < g.rows && |lab| == g.rows && g.ia[i] <= p <= g.ia[i + 1]
  {
    forall q :: p <= q < g.ia[i + 1] && g.entries[q].col != i ==>
      lab[g.entries[q].col] == Unassigned || lab[g.entries[q].col] == id
  }

  /** The rest of row i names distinct, unassigned off-diagonal vertices. */
  predicate FreshRest(g: Matrix, i: nat, p: int, lab: seq<int>)
    requires ValidSquare(g) && i < g.rows && |lab| == g.rows && g.ia[i] <= p <= g.ia[i + 1]
  {
    && (forall q, q' :: p <= q < q' < g.ia[i + 1] ==> g.entries[q].col != g.entries[q'].col)
    && (forall q :: p <= q < g.ia[i + 1] && g.entries[q].col != i ==> lab[g.entries[q].col] == Unassigned)
  }

  /** Absorbing only turns unassigned vertices of the row into members of id. */
  lemma {:induction false} AbsorbChanges(g: Matrix, i: nat, maxAgg: int, onlyFree: bool, id: nat, p: int, count: int, s: Sweep)
    requires ValidSquare(g) && i < g.rows && |s.lab| == g.rows && g.ia[i] <= p <= g.ia[i + 1]
    requires LabelsIn(s.lab, id + 1)
    requires onlyFree || WritableRest(g, i, p, id, s.lab)
    ensures var r := Absorb(g, i, maxAgg, onlyFree, id, p, count, s);
      forall v :: 0 <= v < |s.lab| ==>
        r.lab[v] == s.lab[v] || (s.lab[v] == Unassigned && r.lab[v] == id && InRowFrom(g, i, p, v))
    decreases g.ia[i + 1] - p
  {
    if p < g.ia[i + 1] {
      var c := g.entries[p].col;
      if c != i && (!onlyFree || s.lab[c] < Unpt) && count < maxAgg {
        var s' := Sweep(s.lab[c := id], s.numAgg, s.numLeft - 1);
        AbsorbChanges(g, i, maxAgg, onlyFree, id, p + 1, count + 1, s');
        var r := Absorb(g, i, maxAgg, onlyFree, id, p, count, s);
        forall v | 0 <= v < |s.lab|
          ensures r.lab[v] == s.lab[v] || (s.lab[v] == Unassigned && r.lab[v] == id && InRowFrom(g, i, p, v))
        {
          if v == c {
            InRowFromHere(g, i, p);
          } else if r.lab[v] != s.lab[v] {
            assert s'.lab[v] == s.lab[v];
            InRowFromStep(g, i, p, v);
          }
        }
      } else {
        AbsorbChanges(g, i, maxAgg, onlyFree, id, p + 1, count, s);
        var r := Absorb(g, i, maxAgg, onlyFree, id, p, count, s);
        forall v | 0 <= v < |s.lab| && r.lab[v] != s.lab[v]
          ensures InRowFrom(g, i, p, v)
        {
          InRowFromStep(g, i, p, v);
        }
      }
    }
  }

  /** Absorbing adds at most maxAgg - count members to id and leaves the size
      of every other id unchanged. */
  lemma {:induction false} AbsorbSizes(g: Matrix, i: nat, maxAgg: int, onlyFree: bool, id: nat, p: int, count: int, s: Sweep)
    requires ValidSquare(g) && i < g.rows && |s.lab| == g.rows && g.ia[i] <= p <= g.ia[i + 1]
    requires LabelsIn(s.lab, id + 1)
    requires onlyFree || WritableRest(g, i, p, id, s.lab)
    ensures var r := Absorb(g, i, maxAgg, onlyFree, id, p, count, s);
      && Size(r.lab, id) <= Size(s.lab, id) + (if count < maxAgg then maxAgg - count else 0)
      && (forall b :: b != id && b != Unassigned ==> Size(r.lab, b) == Size(s.lab, b))
    decreases g.ia[i + 1] - p
  {
    if p < g.ia[i + 1] {
      var c := g.entries[p].col;
      if c != i && (!onlyFree || s.lab[c] < Unpt) && count < maxAgg {
        var s' := Sweep(s.lab[c := id], s.numAgg, s.numLeft - 1);
        WriteSizes(s.lab, c, id);
        AbsorbSizes(g, i, maxAgg, onlyFree, id, p + 1, count + 1, s');
      } else {
        AbsorbSizes(g, i, maxAgg, onlyFree, id, p + 1, count, s);
      }
    }
  }

  /** Writing id over an unassigned vertex or a member of id adds at most one
      member to id and leaves every other aggregate as it was. */
  lemma WriteSizes(lab: seq<int>, c: int, id: int)
    requires 0 <= c < |lab| && (lab[c] == Unassigned || lab[c] == id)
    ensures Size(lab[c := id], id) <= Size(lab, id) + 1
    ensures forall b :: b != id && b != Unassigned ==> Size(lab[c := id], b) == Size(lab, b)
  {
    SizeUpdate(lab, c, id, id);
    forall b | b != id && b != Unassigned ensures Size(lab[c := id], b) == Size(lab, b) {
      SizeUpdate(lab, c, id, b);
    }
  }

  /** Writing id over the vertex at position p of a fresh rest leaves the
      rest after p fresh: the vertices there are distinct from it. */
  lemma FreshStep(g: Matrix, i: nat, p: int, id: int, lab: seq<int>)
    requires ValidSquare(g) && i < g.rows && |lab| == g.rows && g.ia[i] <= p < g.ia[i + 1]
    requires FreshRest(g, i, p, lab)
    ensures FreshRest(g, i, p + 1, lab[g.entries[p].col := id])
  {
    var lab' := lab[g.entries[p].col := id];
    forall q | p + 1 <= q < g.ia[i + 1] && g.entries[q].col != i
      ensures lab'[g.entries[q].col] == Unassigned
    {
      assert g.entries[p].col != g.entries[q].col;
    }
  }

  /** One absorbing write lowers num_left by one and the unassigned count by
      at most one: by exactly one when the vertex was unassigned. */
  lemma WriteDrift(s: Sweep, c: int, id: nat)
    requires 0 <= c < |s.lab|
    ensures var s' := Sweep(s.lab[c := id], s.numAgg, s.numLeft - 1);
      && Drift(s') >= Drift(s)
      && (s.lab[c] == Unassigned ==> Drift(s') == Drift(s))
  {
    SizeUpdate(s.lab, c, id, Unassigned);
  }

  /** Every absorbing write lowers num_left by one, so the counter falls at
      least as fast as the unassigned vertices do, and exactly as fast when
      every write meets a fresh unassigned vertex. */
  lemma {:induction false} AbsorbDrift(g: Matrix, i: nat, maxAgg: int, onlyFree: bool, id: nat, p: int, count: int, s: Sweep)
    requires ValidSquare(g) && i < g.rows && |s.lab| == g.rows && g.ia[i] <= p <= g.ia[i + 1]
    requires LabelsIn(s.lab, id + 1)
    requires onlyFree || WritableRest(g, i, p, id, s.lab)
    ensures Drift(Absorb(g, i, maxAgg, onlyFree, id, p, count, s)) >= Drift(s)
    ensures onlyFree || FreshRest(g, i, p, s.lab) ==> Drift(Absorb(g, i, maxAgg, onlyFree, id, p, count, s)) == Drift(s)
    decreases g.ia[i + 1] - p
  {
    if p < g.ia[i + 1] {
      var c := g.entries[p].col;
      if c != i && (!onlyFree || s.lab[c] < Unpt) && count < maxAgg {
        var s' := Sweep(s.lab[c := id], s.numAgg, s.numLeft - 1);
        WriteDrift(s, c, id);
        if FreshRest(g, i, p, s.lab) {
          FreshStep(g, i, p, id, s.lab);
        }
        AbsorbDrift(g, i, maxAgg, onlyFree, id, p + 1, count + 1, s');
      } else {
        AbsorbDrift(g, i, maxAgg, onlyFree, id, p + 1, count, s);
      }
    }
  }

  /** Seeding at i: i gets the new id, only unassigned vertices of row i join
      it, the new aggregate respects the cap, no older aggregate grows, and
      num_left falls by at least the number of vertices assigned. */
  lemma SeedFacts(g: Matrix, i: nat, maxAgg: int, onlyFree: bool, s: Sweep)
    requires Fits(g, s) && i < g.rows
    requires if onlyFree then s.lab[i] == Unassigned else RowFree(g, s.lab, i)
    ensures var r := Seed(g, i, maxAgg, onlyFree, s);
      && Fits(g, r) && r.numAgg == s.numAgg + 1 && r.lab[i] == s.numAgg
      && (forall v :: 0 <= v < g.rows && v != i ==>
            r.lab[v] == s.lab[v] || (s.lab[v] == Unassigned && r.lab[v] == s.numAgg && InRowFrom(g, i, g.ia[i], v)))
      && Size(r.lab, s.numAgg) <= Cap(maxAgg)
      && (forall b :: 0 <= b < s.numAgg ==> Size(r.lab, b) <= Size(s.lab, b))
      && (s.lab[i] == Unassigned ==> forall b :: 0 <= b < s.numAgg ==> Size(r.lab, b) == Size(s.lab, b))
      && Drift(r) >= Drift(s)
      && (s.lab[i] == Unassigned && (onlyFree || FreshRest(g, i, g.ia[i], s.lab)) ==> Drift(r) == Drift(s))
  {
    SeedShape(g, i, maxAgg, onlyFree, s);
    SeedSizes(g, i, maxAgg, onlyFree, s);
  }

  /** The labels part of SeedFacts. */
  lemma SeedShape(g: Matrix, i: nat, maxAgg: int, onlyFree: bool, s: Sweep)
    requires Fits(g, s) && i < g.rows
    requires if onlyFree then s.lab[i] == Unassigned else RowFree(g, s.lab, i)
    ensures var r := Seed(g, i, maxAgg, onlyFree, s);
      && Fits(g, r) && r.numAgg == s.numAgg + 1 && r.lab[i] == s.numAgg
      && (forall v :: 0 <= v < g.rows && v != i ==>
            r.lab[v] == s.lab[v] || (s.lab[v] == Unassigned && r.lab[v] == s.numAgg && InRowFrom(g, i, g.ia[i], v)))
  {
    var id := s.numAgg;
    var s0 := Sweep(s.lab[i := id], id, s.numLeft - 1);
    SeedStart(g, i, onlyFree, s);
    AbsorbChanges(g, i, maxAgg, onlyFree, id, g.ia[i], 1, s0);
  }

  /** The size and drift part of SeedFacts. */
  lemma SeedSizes(g: Matrix, i: nat, maxAgg: int, onlyFree: bool, s: Sweep)
    requires Fits(g, s) && i < g.rows
    requires if onlyFree then s.lab[i] == Unassigned else RowFree(g, s.lab, i)
    ensures var r := Seed(g, i, maxAgg, onlyFree, s);
      && Size(r.lab, s.numAgg) <= Cap(maxAgg)
      && (forall b :: 0 <= b < s.numAgg ==> Size(r.lab, b) <= Size(s.lab, b))
      && (s.lab[i] == Unassigned ==> forall b :: 0 <= b < s.numAgg ==> Size(r.lab, b) == Size(s.lab, b))
      && Drift(r) >= Drift(s)
      && (s.lab[i] == Unassigned && (onlyFree || FreshRest(g, i, g.ia[i], s.lab)) ==> Drift(r) == Drift(s))
  {
    var id := s.numAgg;
    var s0 := Sweep(s.lab[i := id], id, s.numLeft - 1);
    SeedStart(g, i, onlyFree, s);
    AbsorbSizes(g, i, maxAgg, onlyFree, id, g.ia[i], 1, s0);
    AbsorbDrift(g, i, maxAgg, onlyFree, id, g.ia[i], 1, s0);
  }

  /** The seed itself: i takes the new id, which no vertex had before. */
  lemma SeedStart(g: Matrix, i: nat, onlyFree: bool, s: Sweep)
    requires Fits(g, s) && i < g.rows
    requires if onlyFree then s.lab[i] == Unassigned else RowFree(g, s.lab, i)
    ensures var id := s.numAgg; var lab0 := s.lab[i := id];
      && LabelsIn(lab0, id + 1) && (onlyFree || WritableRest(g, i, g.ia[i], id, lab0))
      && (FreshRest(g, i, g.ia[i], s.lab) ==> FreshRest(g, i, g.ia[i], lab0))
      && Size(lab0, id) == 1
      && Size(lab0, Unassigned) == Size(s.lab, Unassigned) - (if s.lab[i] == Unassigned then 1 else 0)
      && (forall b :: 0 <= b < id ==> Size(lab0, b) == Size(s.lab, b) - (if s.lab[i] == b then 1 else 0))
  {
    var id := s.numAgg;
    var lab0 := s.lab[i := id];
    assert LabelsIn(lab0, id + 1);
    assert onlyFree || WritableRest(g, i, g.ia[i], id, lab0);
    assert FreshRest(g, i, g.ia[i], s.lab) ==> FreshRest(g, i, g.ia[i], lab0);
    assert id !in s.lab;
    SizeUpdate(s.lab, i, id, id);
    SizeUpdate(s.lab, i, id, Unassigned);
    forall b | 0 <= b < id ensures Size(lab0, b) == Size(s.lab, b) - (if s.lab[i] == b then 1 else 0) {
      SizeUpdate(s.lab, i, id, b);
    }
  }

  // ---------------------------------------------------------------------------
  // Sweep 1
  // ---------------------------------------------------------------------------

  /** Every entry of row i is still unassigned (the routine's subset test). */
  predicate RowFree(g: Matrix, lab: seq<int>, i: nat)
    requires Valid(g) && i < g.rows && |lab| == g.cols
  {
    forall q :: g.ia[i] <= q < g.ia[i + 1] ==> lab[g.entries[q].col] < Unpt
  }

  /** All vertices unassigned, no aggregate, num_left = n. */
  function Initial(n: nat): Sweep {
    Sweep(seq(n, _ => Unassigned), 0, n)
  }

  /** Sweep 1 at vertex i. */
  function Pass1Vertex(g: Matrix, maxAgg: int, s: Sweep, i: nat): (r: Sweep)
    requires ValidSquare(g) && i < g.rows && |s.lab| == g.rows
    ensures |r.lab| == g.rows
  {
    if RowLen(g, i) == 1 then Sweep(s.lab[i := Unpt], s.numAgg, s.numLeft - 1)
    else if RowFree(g, s.lab, i) then Seed(g, i, maxAgg, false, s)
    else s
  }

  /** Sweep 1 over vertices i-1 down to 0. */
  function Pass1From(g: Matrix, maxAgg: int, s: Sweep, i: nat): (r: Sweep)
    requires ValidSquare(g) && i <= g.rows && |s.lab| == g.rows
    ensures |r.lab| == g.rows
    decreases i
  {
    if i == 0 then s else Pass1From(g, maxAgg, Pass1Vertex(g, maxAgg, s, i - 1), i - 1)
  }

  function Pass1(g: Matrix, maxAgg: int): (r: Sweep)
    requires ValidSquare(g)
    ensures |r.lab| == g.rows
  {
    Pass1From(g, maxAgg, Initial(g.rows), g.rows)
  }

  /** Some vertex at index i or above carries label a. */
  predicate SeededFrom(lab: seq<int>, a: int, i: nat) {
    exists w :: i <= w < |lab| && lab[w] == a
  }

  /** What holds after sweep 1 has processed vertices i .. n-1. */
  predicate Pass1Inv(g: Matrix, maxAgg: int, s: Sweep, i: nat)
    requires ValidSquare(g) && i <= g.rows
  {
    && Fits(g, s) && CountBehind(s) && Capped(s.lab, s.numAgg, maxAgg)
    && (forall a :: 0 <= a < s.numAgg ==> SeededFrom(s.lab, a, i))
    && (forall v :: 0 <= v < g.rows ==> (s.lab[v] == Unpt <==> i <= v && RowLen(g, v) == 1))
  }

  lemma Pass1VertexInv(g: Matrix, maxAgg: int, s: Sweep, i: nat)
    requires ValidSquare(g) && 0 < i <= g.rows && Pass1Inv(g, maxAgg, s, i)
    ensures Pass1Inv(g, maxAgg, Pass1Vertex(g, maxAgg, s, i - 1), i - 1)
  {
    if RowLen(g, i - 1) == 1 {
      Pass1IsolatedInv(g, maxAgg, s, i);
    } else if RowFree(g, s.lab, i - 1) {
      Pass1SeedInv(g, maxAgg, s, i);
    } else {
      var v := i - 1;
      forall a | 0 <= a < s.numAgg ensures SeededFrom(s.lab, a, v) {
        assert SeededFrom(s.lab, a, i);
      }
    }
  }

  lemma Pass1IsolatedInv(g: Matrix, maxAgg: int, s: Sweep, i: nat)
    requires ValidSquare(g) && 0 < i <= g.rows && Pass1Inv(g, maxAgg, s, i)
    requires RowLen(g, i - 1) == 1
    ensures Pass1Inv(g, maxAgg, Sweep(s.lab[i - 1 := Unpt], s.numAgg, s.numLeft - 1), i - 1)
  {
    var v := i - 1;
    var r := Sweep(s.lab[v := Unpt], s.numAgg, s.numLeft - 1);
    SizeUpdate(s.lab, v, Unpt, Unassigned);
    forall b | 0 <= b < s.numAgg ensures Size(r.lab, b) <= Size(s.lab, b) {
      SizeUpdate(s.lab, v, Unpt, b);
    }
    forall a | 0 <= a < r.numAgg ensures SeededFrom(r.lab, a, v) {
      assert SeededFrom(s.lab, a, i);
      var w :| i <= w < |s.lab| && s.lab[w] == a;
      assert r.lab[w] == a;
    }
  }

  lemma Pass1SeedInv(g: Matrix, maxAgg: int, s: Sweep, i: nat)
    requires ValidSquare(g) && 0 < i <= g.rows && Pass1Inv(g, maxAgg, s, i)
    requires RowLen(g, i - 1) != 1 && RowFree(g, s.lab, i - 1)
    ensures Pass1Inv(g, maxAgg, Seed(g, i - 1, maxAgg, false, s), i - 1)
  {
    var v := i - 1;
    var r := Seed(g, v, maxAgg, false, s);
    SeedFacts(g, v, maxAgg, false, s);
    forall a | 0 <= a < r.numAgg ensures SeededFrom(r.lab, a, v) {
      if a < s.numAgg {
        assert SeededFrom(s.lab, a, i);
        var w :| i <= w < |s.lab| && s.lab[w] == a;
        assert r.lab[w] == a;
      } else {
        assert r.lab[v] == a;
      }
    }
  }

  lemma {:induction false} Pass1FromInv(g: Matrix, maxAgg: int, s: Sweep, i: nat)
    requires ValidSquare(g) && i <= g.rows && Pass1Inv(g, maxAgg, s, i)
    ensures Pass1Inv(g, maxAgg, Pass1From(g, maxAgg, s, i), 0)
    decreases i
  {
    if i > 0 {
      Pass1VertexInv(g, maxAgg, s, i);
      Pass1FromInv(g, maxAgg, Pass1Vertex(g, maxAgg, s, i - 1), i - 1);
    }
  }

  /** Sweep 1 on its own: labels are markers or ids below the aggregate count,
      every id has a member, no aggregate exceeds the cap, exactly the vertices
      with a one-entry row are isolated, and num_left never exceeds the number
      of vertices still unassigned. */
  lemma Pass1Facts(g: Matrix, maxAgg: int)
    requires ValidSquare(g)
    ensures var s := Pass1(g, maxAgg);
      && Fits(g, s) && CountBehind(s) && Capped(s.lab, s.numAgg, maxAgg)
      && EveryIdUsed(s.lab, s.numAgg)
      && (forall v :: 0 <= v < g.rows ==> (s.lab[v] == Unpt <==> RowLen(g, v) == 1))
  {
    var s0 := Initial(g.rows);
    SizeConstant(g.rows, Unassigned);
    Pass1FromInv(g, maxAgg, s0, g.rows);
    var s := Pass1(g, maxAgg);
    forall a | 0 <= a < s.numAgg ensures a in s.lab {
      assert SeededFrom(s.lab, a, 0);
      var w :| 0 <= w < |s.lab| && s.lab[w] == a;
    }
  }

  // ---------------------------------------------------------------------------
  // Sweep 2
  // ---------------------------------------------------------------------------

  /** State of sweep 2: the labels, the member counts num_each_agg of the
      aggregates formed by sweep 1, and num_left. */
  datatype Join = Join(lab: seq<int>, counts: seq<int>, numLeft: int)

  /** Storage position q offers room: its column belonged to an aggregate after
      sweep 1 (labels snap) and that aggregate's count is below the cap. */
  predicate Room(g: Matrix, snap: seq<int>, counts: seq<int>, maxAgg: int, q: int)
    requires ValidSquare(g) && 0 <= q < |g.entries| && |snap| == g.rows && LabelsIn(snap, |counts|)
  {
    var t := snap[g.entries[q].col];
    t > Unpt && counts[t] < maxAgg
  }

  /** The first position of row i from p on that offers room. */
  function FirstRoom(g: Matrix, snap: seq<int>, counts: seq<int>, maxAgg: int, i: nat, p: int): (r: Option<int>)
    requires ValidSquare(g) && i < g.rows && |snap| == g.rows && LabelsIn(snap, |counts|)
    requires g.ia[i] <= p <= g.ia[i + 1]
    ensures r.Some? ==> p <= r.value < g.ia[i + 1] && Room(g, snap, counts, maxAgg, r.value)
    ensures r.Some? ==> forall q :: p <= q < r.value ==> !Room(g, snap, counts, maxAgg, q)
    ensures r.None? ==> forall q :: p <= q < g.ia[i + 1] ==> !Room(g, snap, counts, maxAgg, q)
    decreases g.ia[i + 1] - p
  {
    if p == g.ia[i + 1] then None
    else if Room(g, snap, counts, maxAgg, p) then Some(p)
    else FirstRoom(g, snap, counts, maxAgg, i, p + 1)
  }

  /** Sweep 2 at vertex i: an unassigned vertex joins the aggregate offered by
      the first position with room, and that aggregate's count grows. */
  function Pass2Vertex(g: Matrix, snap: seq<int>, maxAgg: int, st: Join, i: nat): (r: Join)
    requires ValidSquare(g) && i < g.rows && |snap| == g.rows && |st.lab| == g.rows
    requires LabelsIn(snap, |st.counts|)
    ensures |r.lab| == g.rows && |r.counts| == |st.counts|
  {
    if st.lab[i] < Unpt then
      match FirstRoom(g, snap, st.counts, maxAgg, i, g.ia[i])
      case None => st
      case Some(q) =>
        var t := snap[g.entries[q].col];
        Join(st.lab[i := t], st.counts[t := st.counts[t] + 1], st.numLeft - 1)
    else st
  }

  /** Sweep 2 over vertices i-1 down to 0. */
  function Pass2From(g: Matrix, snap: seq<int>, maxAgg: int, st: Join, i: nat): (r: Join)
    requires ValidSquare(g) && i <= g.rows && |snap| == g.rows && |st.lab| == g.rows
    requires LabelsIn(snap, |st.counts|)
    ensures |r.lab| == g.rows && |r.counts| == |st.counts|
    decreases i
  {
    if i == 0 then st else Pass2From(g, snap, maxAgg, Pass2Vertex(g, snap, maxAgg, st, i - 1), i - 1)
  }

  /** Sweep 2 after sweep 1 left s: the counts start as the aggregate sizes. */
  function Pass2(g: Matrix, s: Sweep, maxAgg: int): (r: Join)
    requires Fits(g, s)
    ensures |r.lab| == g.rows
  {
    Pass2From(g, s.lab, maxAgg, Join(s.lab, seq(s.numAgg, a => Size(s.lab, a)), s.numLeft), g.rows)
  }

  /** The labels as sweep 2 finds them on reaching vertex v: vertices 0 .. v
      still carry their sweep-1 labels snap, later vertices their labels in
      lab. */
  function AtTurn(snap: seq<int>, lab: seq<int>, v: nat): (t: seq<int>)
    requires v < |snap| && |lab| == |snap|
    ensures |t| == |snap|
  {
    snap[..v + 1] + lab[v + 1..]
  }

  /** Every position of row v before q whose column had a sweep-1 aggregate
      names an aggregate that is full in the labels cur. */
  predicate FullBefore(g: Matrix, snap: seq<int>, cur: seq<int>, maxAgg: int, v: nat, q: int)
    requires ValidSquare(g) && v < g.rows && |snap| == g.rows && q <= g.ia[v + 1]
  {
    forall q' :: g.ia[v] <= q' < q && snap[g.entries[q'].col] > Unpt ==> Size(cur, snap[g.entries[q'].col]) >= maxAgg
  }

  /** Vertex v carries the sweep-1 aggregate of the column at position q of its
      row; when v was reached that aggregate was below the cap and every
      earlier position offering a sweep-1 aggregate was full. */
  predicate JoinedAt(g: Matrix, snap: seq<int>, lab: seq<int>, maxAgg: int, v: nat, q: int)
    requires ValidSquare(g) && v < g.rows && |snap| == g.rows && |lab| == g.rows
  {
    && g.ia[v] <= q < g.ia[v + 1]
    && snap[g.entries[q].col] > Unpt
    && lab[v] == snap[g.entries[q].col]
    && Size(AtTurn(snap, lab, v), snap[g.entries[q].col]) < maxAgg
    && FullBefore(g, snap, AtTurn(snap, lab, v), maxAgg, v, q)
  }

  /** The rule of sweep 2 for a vertex unassigned after sweep 1: it joined the
      first aggregate with room when it was reached, or every aggregate it
      could join was full then. */
  ghost predicate JoinRule(g: Matrix, snap: seq<int>, lab: seq<int>, maxAgg: int, v: nat)
    requires ValidSquare(g) && v < g.rows && |snap| == g.rows && |lab| == g.rows
  {
    && (lab[v] == Unassigned ==> FullBefore(g, snap, AtTurn(snap, lab, v), maxAgg, v, g.ia[v + 1]))
    && (lab[v] != Unassigned ==> exists q :: JoinedAt(g, snap, lab, maxAgg, v, q))
  }

  /** No aggregate id loses members from lab to lab'. */
  ghost predicate Grows(lab: seq<int>, lab': seq<int>) {
    forall a :: 0 <= a ==> Size(lab', a) >= Size(lab, a)
  }

  /** The counts num_each_agg are the sizes of the sweep-1 aggregates. */
  predicate CountsExact(lab: seq<int>, counts: seq<int>, k: nat) {
    |counts| == k && forall a :: 0 <= a < k ==> counts[a] == Size(lab, a)
  }

  /** Sweep 2 so far only moved vertices i .. n-1 from unassigned to a sweep-1
      aggregate. */
  predicate OnlyJoined(snap: seq<int>, lab: seq<int>, k: nat, i: nat) {
    |lab| == |snap| &&
    forall v :: 0 <= v < |snap| ==> lab[v] == snap[v] || (snap[v] == Unassigned && 0 <= lab[v] < k && i <= v)
  }

  /** The join rule holds for every processed vertex unassigned after sweep 1. */
  ghost predicate JoinRules(g: Matrix, snap: seq<int>, lab: seq<int>, maxAgg: int, i: nat)
    requires ValidSquare(g) && i <= g.rows && |snap| == g.rows && |lab| == g.rows
  {
    forall v :: i <= v < g.rows && snap[v] == Unassigned ==> JoinRule(g, snap, lab, maxAgg, v)
  }

  /** The bookkeeping of sweep 2 after it has processed vertices i .. n-1,
      given the sweep-1 labels snap with k aggregates and the drift of
      num_left. */
  predicate Pass2Counts(g: Matrix, snap: seq<int>, k: nat, maxAgg: int, drift: int, st: Join, i: nat) {
    && |snap| == g.rows && LabelsIn(snap, k) && |st.lab| == g.rows
    && CountsExact(st.lab, st.counts, k)
    && OnlyJoined(snap, st.lab, k, i)
    && Capped(st.lab, k, maxAgg)
    && Size(st.lab, Unassigned) - st.numLeft == drift
  }

  /** What holds after sweep 2 has processed vertices i .. n-1: the
      bookkeeping, and the join rule for every vertex processed. */
  ghost predicate Pass2Inv(g: Matrix, snap: seq<int>, k: nat, maxAgg: int, drift: int, st: Join, i: nat)
    requires ValidSquare(g) && i <= g.rows
  {
    && Pass2Counts(g, snap, k, maxAgg, drift, st, i)
    && JoinRules(g, snap, st.lab, maxAgg, i)
  }

  lemma Pass2VertexInv(g: Matrix, snap: seq<int>, k: nat, maxAgg: int, drift: int, st: Join, i: nat)
    requires ValidSquare(g) && 0 < i <= g.rows && Pass2Inv(g, snap, k, maxAgg, drift, st, i)
    ensures Pass2Inv(g, snap, k, maxAgg, drift, Pass2Vertex(g, snap, maxAgg, st, i - 1), i - 1)
  {
    var v := i - 1;
    if st.lab[v] < Unpt {
      match FirstRoom(g, snap, st.counts, maxAgg, v, g.ia[v])
      case None =>
        Pass2NoRoomInv(g, snap, k, maxAgg, drift, st, i);
      case Some(q) =>
        Pass2JoinInv(g, snap, k, maxAgg, drift, st, i, q);
    } else {
      Pass2DecidedInv(g, snap, k, maxAgg, drift, st, i);
    }
  }

  /** Sweep 2 passes over a vertex that is already decided. */
  lemma Pass2DecidedInv(g: Matrix, snap: seq<int>, k: nat, maxAgg: int, drift: int, st: Join, i: nat)
    requires ValidSquare(g) && 0 < i <= g.rows && Pass2Inv(g, snap, k, maxAgg, drift, st, i)
    requires st.lab[i - 1] >= Unpt
    ensures Pass2Inv(g, snap, k, maxAgg, drift, Pass2Vertex(g, snap, maxAgg, st, i - 1), i - 1)
  {
    assert Pass2Vertex(g, snap, maxAgg, st, i - 1) == st;
    assert snap[i - 1] == st.lab[i - 1];
    JoinRulesDown(g, snap, st.lab, maxAgg, i);
    assert Pass2Counts(g, snap, k, maxAgg, drift, st, i - 1);
  }

  /** A vertex decided by sweep 1 owes no join rule. */
  lemma JoinRulesDown(g: Matrix, snap: seq<int>, lab: seq<int>, maxAgg: int, i: nat)
    requires ValidSquare(g) && 0 < i <= g.rows && |snap| == g.rows && |lab| == g.rows
    requires snap[i - 1] != Unassigned && JoinRules(g, snap, lab, maxAgg, i)
    ensures JoinRules(g, snap, lab, maxAgg, i - 1)
  {
    forall w | i - 1 <= w < g.rows && snap[w] == Unassigned ensures JoinRule(g, snap, lab, maxAgg, w) {
      assert i <= w;
    }
  }

  lemma Pass2NoRoomInv(g: Matrix, snap: seq<int>, k: nat, maxAgg: int, drift: int, st: Join, i: nat)
    requires ValidSquare(g) && 0 < i <= g.rows && Pass2Inv(g, snap, k, maxAgg, drift, st, i)
    requires st.lab[i - 1] < Unpt && FirstRoom(g, snap, st.counts, maxAgg, i - 1, g.ia[i - 1]).None?
    ensures Pass2Inv(g, snap, k, maxAgg, drift, Pass2Vertex(g, snap, maxAgg, st, i - 1), i - 1)
  {
    assert Pass2Vertex(g, snap, maxAgg, st, i - 1) == st;
    TurnNow(snap, st.lab, k, i);
    NoRoomFull(g, snap, st.lab, st.counts, k, maxAgg, i - 1, g.ia[i]);
  }

  /** When sweep 2 reaches vertex i-1, the current labels are those it finds. */
  lemma TurnNow(snap: seq<int>, lab: seq<int>, k: nat, i: nat)
    requires 0 < i <= |snap| && OnlyJoined(snap, lab, k, i)
    ensures AtTurn(snap, lab, i - 1) == lab
  {
    assert forall w :: 0 <= w < i ==> lab[w] == snap[w];
  }

  /** Positions without room name full aggregates: the counts are the sizes. */
  lemma NoRoomFull(g: Matrix, snap: seq<int>, lab: seq<int>, counts: seq<int>, k: nat, maxAgg: int, v: nat, q: int)
    requires ValidSquare(g) && v < g.rows && |snap| == g.rows && LabelsIn(snap, k) && CountsExact(lab, counts, k)
    requires g.ia[v] <= q <= g.ia[v + 1]
    requires forall q' :: g.ia[v] <= q' < q ==> !Room(g, snap, counts, maxAgg, q')
    ensures FullBefore(g, snap, lab, maxAgg, v, q)
  {
    forall q' | g.ia[v] <= q' < q && snap[g.entries[q'].col] > Unpt
      ensures Size(lab, snap[g.entries[q'].col]) >= maxAgg
    {
      assert !Room(g, snap, counts, maxAgg, q');
    }
  }

  lemma Pass2JoinInv(g: Matrix, snap: seq<int>, k: nat, maxAgg: int, drift: int, st: Join, i: nat, q: int)
    requires ValidSquare(g) && 0 < i <= g.rows && Pass2Inv(g, snap, k, maxAgg, drift, st, i)
    requires st.lab[i - 1] < Unpt && FirstRoom(g, snap, st.counts, maxAgg, i - 1, g.ia[i - 1]) == Some(q)
    ensures Pass2Inv(g, snap, k, maxAgg, drift, Pass2Vertex(g, snap, maxAgg, st, i - 1), i - 1)
  {
    var t := snap[g.entries[q].col];
    assert Pass2Vertex(g, snap, maxAgg, st, i - 1) == Join(st.lab[i - 1 := t], st.counts[t := st.counts[t] + 1], st.numLeft - 1);
    Pass2JoinCounts(g, snap, k, maxAgg, drift, st, i, q);
    Pass2JoinRules(g, snap, k, maxAgg, drift, st, i, q);
  }

  /** The bookkeeping after vertex i-1 joins the aggregate offered at q. */
  lemma Pass2JoinCounts(g: Matrix, snap: seq<int>, k: nat, maxAgg: int, drift: int, st: Join, i: nat, q: int)
    requires ValidSquare(g) && 0 < i <= g.rows && Pass2Counts(g, snap, k, maxAgg, drift, st, i)
    requires st.lab[i - 1] < Unpt && FirstRoom(g, snap, st.counts, maxAgg, i - 1, g.ia[i - 1]) == Some(q)
    ensures var t := snap[g.entries[q].col];
      Pass2Counts(g, snap, k, maxAgg, drift, Join(st.lab[i - 1 := t], st.counts[t := st.counts[t] + 1], st.numLeft - 1), i - 1)
  {
    var v := i - 1;
    var t := snap[g.entries[q].col];
    var r := Join(st.lab[v := t], st.counts[t := st.counts[t] + 1], st.numLeft - 1);
    assert 0 <= t < k && st.counts[t] < maxAgg;
    assert st.lab[v] == Unassigned && snap[v] == Unassigned;
    JoinCounts(st.lab, st.counts, k, maxAgg, v, t);
    assert OnlyJoined(snap, r.lab, k, v);
  }

  /** The join rule after vertex i-1 joins the aggregate offered at q. */
  lemma Pass2JoinRules(g: Matrix, snap: seq<int>, k: nat, maxAgg: int, drift: int, st: Join, i: nat, q: int)
    requires ValidSquare(g) && 0 < i <= g.rows && Pass2Inv(g, snap, k, maxAgg, drift, st, i)
    requires st.lab[i - 1] < Unpt && FirstRoom(g, snap, st.counts, maxAgg, i - 1, g.ia[i - 1]) == Some(q)
    ensures JoinRules(g, snap, st.lab[i - 1 := snap[g.entries[q].col]], maxAgg, i - 1)
  {
    var v := i - 1;
    var t := snap[g.entries[q].col];
    assert 0 <= t < k && Size(st.lab, t) < maxAgg;
    NoRoomFull(g, snap, st.lab, st.counts, k, maxAgg, v, q);
    TurnNow(snap, st.lab, k, i);
    JoinedRules(g, snap, st.lab, st.lab[v := t], maxAgg, v, q);
  }

  /** Vertex v joins the aggregate offered at position q of its row, which has
      room in the labels lab it finds, every earlier offer being full there:
      the join rule now holds from v on. */
  lemma JoinedRules(g: Matrix, snap: seq<int>, lab: seq<int>, lab': seq<int>, maxAgg: int, v: nat, q: int)
    requires ValidSquare(g) && v < g.rows && |snap| == g.rows && |lab| == g.rows
    requires AtTurn(snap, lab, v) == lab
    requires g.ia[v] <= q < g.ia[v + 1] && snap[g.entries[q].col] > Unpt && Size(lab, snap[g.entries[q].col]) < maxAgg
    requires lab' == lab[v := snap[g.entries[q].col]]
    requires FullBefore(g, snap, lab, maxAgg, v, q) && JoinRules(g, snap, lab, maxAgg, v + 1)
    ensures JoinRules(g, snap, lab', maxAgg, v)
  {
    JoinRulesKeep(g, snap, lab, lab', maxAgg, v + 1);
    assert lab'[v + 1..] == lab[v + 1..];
    assert AtTurn(snap, lab', v) == lab;
    assert JoinedAt(g, snap, lab', maxAgg, v, q);
  }

  /** Vertex v, unassigned, joins aggregate t, which has room: the counts
      stay exact, every aggregate stays within the cap, none shrinks, and one
      vertex fewer is unassigned. */
  lemma JoinCounts(lab: seq<int>, counts: seq<int>, k: nat, maxAgg: int, v: nat, t: nat)
    requires v < |lab| && lab[v] == Unassigned && t < k
    requires CountsExact(lab, counts, k) && Capped(lab, k, maxAgg) && counts[t] < maxAgg
    ensures var lab' := lab[v := t];
      && CountsExact(lab', counts[t := counts[t] + 1], k)
      && Capped(lab', k, maxAgg) && Grows(lab, lab')
      && Size(lab', Unassigned) == Size(lab, Unassigned) - 1
  {
    var lab' := lab[v := t];
    SizeUpdate(lab, v, t, Unassigned);
    forall a | 0 <= a ensures Size(lab', a) == Size(lab, a) + (if a == t then 1 else 0) {
      SizeUpdate(lab, v, t, a);
    }
    assert Capped(lab', k, maxAgg) by {
      forall a | 0 <= a < k ensures Size(lab', a) <= Cap(maxAgg) {
        assert Size(lab, a) <= Cap(maxAgg);
      }
    }
  }

  /** The join rule of the vertices already processed survives any step that
      leaves their labels alone: the labels each of them found are unchanged. */
  lemma JoinRulesKeep(g: Matrix, snap: seq<int>, lab: seq<int>, lab': seq<int>, maxAgg: int, i: nat)
    requires ValidSquare(g) && 0 < i <= g.rows && |snap| == g.rows && |lab| == g.rows && |lab'| == g.rows
    requires forall w :: i <= w < g.rows ==> lab'[w] == lab[w]
    requires JoinRules(g, snap, lab, maxAgg, i)
    ensures JoinRules(g, snap, lab', maxAgg, i)
  {
    forall w | i <= w < g.rows && snap[w] == Unassigned ensures JoinRule(g, snap, lab', maxAgg, w) {
      assert JoinRule(g, snap, lab, maxAgg, w);
      assert lab'[w + 1..] == lab[w + 1..];
      assert AtTurn(snap, lab', w) == AtTurn(snap, lab, w);
      if lab[w] != Unassigned {
        var q0 :| JoinedAt(g, snap, lab, maxAgg, w, q0);
        assert JoinedAt(g, snap, lab', maxAgg, w, q0);
      }
    }
  }

  lemma Pass2FromInv(g: Matrix, snap: seq<int>, k: nat, maxAgg: int, drift: int, st: Join, i: nat)
    requires ValidSquare(g) && i <= g.rows && Pass2Inv(g, snap, k, maxAgg, drift, st, i)
    ensures Pass2Inv(g, snap, k, maxAgg, drift, Pass2From(g, snap, maxAgg, st, i), 0)
  {
    var inv := (s: Join, j: nat) => j <= g.rows && Pass2Inv(g, snap, k, maxAgg, drift, s, j);
    forall s: Join, j: nat | 0 < j <= i && |s.lab| == g.rows && |s.counts| == |st.counts| && inv(s, j)
      ensures inv(Pass2Vertex(g, snap, maxAgg, s, j - 1), j - 1)
    {
      Pass2VertexInv(g, snap, k, maxAgg, drift, s, j);
    }
    assert |st.counts| == k && inv(st, i);
    Pass2FromKeeps(g, snap, maxAgg, st, i, inv);
  }

  /** Any property of the sweep-2 state that each vertex step keeps holds at
      the end of the sweep. */
  lemma {:induction false} Pass2FromKeeps(g: Matrix, snap: seq<int>, maxAgg: int, st: Join, i: nat, inv: (Join, nat) -> bool)
    requires ValidSquare(g) && i <= g.rows && |snap| == g.rows && |st.lab| == g.rows && LabelsIn(snap, |st.counts|)
    requires inv(st, i)
    requires forall s: Join, j: nat :: 0 < j <= i && |s.lab| == g.rows && |s.counts| == |st.counts| && inv(s, j) ==>
      inv(Pass2Vertex(g, snap, maxAgg, s, j - 1), j - 1)
    ensures inv(Pass2From(g, snap, maxAgg, st, i), 0)
    decreases i
  {
    if i > 0 {
      Pass2FromKeeps(g, snap, maxAgg, Pass2Vertex(g, snap, maxAgg, st, i - 1), i - 1, inv);
    }
  }

  /** Sweep 2 on the result of sweep 1: it only moves unassigned vertices into
      sweep-1 aggregates, keeps every aggregate within the cap, keeps the drift
      of num_left, and every vertex unassigned after sweep 1 obeys the join
      rule. */
  lemma Pass2Facts(g: Matrix, maxAgg: int)
    requires ValidSquare(g)
    ensures Fits(g, Pass1(g, maxAgg)) && CountBehind(Pass1(g, maxAgg))
    ensures var s1 := Pass1(g, maxAgg);
      var j := Pass2(g, s1, maxAgg);
      && LabelsIn(j.lab, s1.numAgg) && EveryIdUsed(j.lab, s1.numAgg) && Capped(j.lab, s1.numAgg, maxAgg)
      && OnlyJoined(s1.lab, j.lab, s1.numAgg, 0)
      && Size(j.lab, Unassigned) - j.numLeft == Drift(s1)
      && JoinRules(g, s1.lab, j.lab, maxAgg, 0)
  {
    Pass1Facts(g, maxAgg);
    var s1 := Pass1(g, maxAgg);
    var k := s1.numAgg;
    var st := Join(s1.lab, seq(k, a => Size(s1.lab, a)), s1.numLeft);
    assert Pass2Inv(g, s1.lab, k, maxAgg, Drift(s1), st, g.rows);
    Pass2FromInv(g, s1.lab, k, maxAgg, Drift(s1), st, g.rows);
    var j := Pass2(g, s1, maxAgg);
    forall a | 0 <= a < k ensures a in j.lab {
      assert a in s1.lab;
      var w :| 0 <= w < |s1.lab| && s1.lab[w] == a;
      assert j.lab[w] == a;
    }
  }

  // ---------------------------------------------------------------------------
  // Sweep 3
  // ---------------------------------------------------------------------------

  /** One forward sweep of step 3 from vertex i: every vertex still unassigned
      when reached seeds a new aggregate of unassigned neighbours. */
  function Pass3Sweep(g: Matrix, maxAgg: int, s: Sweep, i: nat): (r: Sweep)
    requires ValidSquare(g) && i <= g.rows && |s.lab| == g.rows
    ensures |r.lab| == g.rows
    decreases g.rows - i
  {
    if i == g.rows then s
    else Pass3Sweep(g, maxAgg, if s.lab[i] < Unpt then Seed(g, i, maxAgg, true, s) else s, i + 1)
  }

  /** What holds after a step-3 sweep from s0 has reached vertex i. */
  predicate Pass3Inv(g: Matrix, maxAgg: int, s0: Sweep, s: Sweep, i: nat)
    requires ValidSquare(g) && i <= g.rows && |s0.lab| == g.rows
  {
    && Fits(g, s) && s.numAgg >= s0.numAgg && Drift(s) == Drift(s0)
    && (forall v :: 0 <= v < i ==> s.lab[v] != Unassigned)
    && (forall v :: 0 <= v < g.rows ==> s.lab[v] == s0.lab[v] || (s0.lab[v] == Unassigned && s.lab[v] >= s0.numAgg))
    && (forall b :: 0 <= b < s0.numAgg ==> Size(s.lab, b) == Size(s0.lab, b))
    && (forall b :: s0.numAgg <= b < s.numAgg ==> b in s.lab && Size(s.lab, b) <= Cap(maxAgg))
  }

  lemma Pass3VertexInv(g: Matrix, maxAgg: int, s0: Sweep, s: Sweep, i: nat)
    requires ValidSquare(g) && i < g.rows && |s0.lab| == g.rows && Pass3Inv(g, maxAgg, s0, s, i)
    ensures Pass3Inv(g, maxAgg, s0, if s.lab[i] < Unpt then Seed(g, i, maxAgg, true, s) else s, i + 1)
  {
    if s.lab[i] < Unpt {
      var r := Seed(g, i, maxAgg, true, s);
      SeedFacts(g, i, maxAgg, true, s);
      forall b | s0.numAgg <= b < r.numAgg ensures b in r.lab && Size(r.lab, b) <= Cap(maxAgg) {
        if b < s.numAgg {
          assert Size(r.lab, b) == Size(s.lab, b);
        } else {
          assert r.lab[i] == b;
        }
      }
    }
  }

  lemma {:induction false} Pass3SweepInv(g: Matrix, maxAgg: int, s0: Sweep, s: Sweep, i: nat)
    requires ValidSquare(g) && i <= g.rows && |s0.lab| == g.rows && Pass3Inv(g, maxAgg, s0, s, i)
    ensures Pass3Inv(g, maxAgg, s0, Pass3Sweep(g, maxAgg, s, i), g.rows)
    decreases g.rows - i
  {
    if i < g.rows {
      var s' := if s.lab[i] < Unpt then Seed(g, i, maxAgg, true, s) else s;
      Pass3VertexInv(g, maxAgg, s0, s, i);
      Pass3SweepInv(g, maxAgg, s0, s', i + 1);
    }
  }

  /** One full step-3 sweep leaves no vertex unassigned, keeps every label
      that was already decided, and keeps the drift of num_left; so when
      num_left did not run ahead, it ends at or below zero. */
  lemma Pass3SweepFacts(g: Matrix, maxAgg: int, s: Sweep)
    requires Fits(g, s)
    ensures Pass3Inv(g, maxAgg, s, Pass3Sweep(g, maxAgg, s, 0), g.rows)
    ensures Covered(Pass3Sweep(g, maxAgg, s, 0).lab)
    ensures Pass3Sweep(g, maxAgg, s, 0).numLeft == -Drift(s)
  {
    Pass3SweepInv(g, maxAgg, s, s, 0);
    var t := Pass3Sweep(g, maxAgg, s, 0);
    assert Unassigned !in t.lab;
  }

  /** Step 3 as written: sweep while the counter num_left is positive. */
  function Pass3Loop(g: Matrix, maxAgg: int, s: Sweep): (r: Sweep)
    requires Fits(g, s) && CountBehind(s)
    ensures |r.lab| == g.rows
    decreases if s.numLeft > 0 then s.numLeft else 0
  {
    if s.numLeft > 0 then
      Pass3SweepFacts(g, maxAgg, s);
      Pass3Loop(g, maxAgg, Pass3Sweep(g, maxAgg, s, 0))
    else s
  }

  /** Step 3 corrected: sweep while some vertex is really unassigned. */
  function Pass3Fixed(g: Matrix, maxAgg: int, s: Sweep): (r: Sweep)
    requires ValidSquare(g) && |s.lab| == g.rows
    ensures |r.lab| == g.rows
  {
    if Unassigned in s.lab then Pass3Sweep(g, maxAgg, s, 0) else s
  }

  /** The loop of step 3 runs its body at most once: one sweep assigns every
      vertex, after which num_left can no longer be positive. */
  lemma Pass3AtMostOnce(g: Matrix, maxAgg: int, s: Sweep)
    requires Fits(g, s) && CountBehind(s)
    ensures Pass3Loop(g, maxAgg, s) == if s.numLeft > 0 then Pass3Sweep(g, maxAgg, s, 0) else s
  {
    if s.numLeft > 0 {
      Pass3SweepFacts(g, maxAgg, s);
    }
  }

  // ---------------------------------------------------------------------------
  // The routine
  // ---------------------------------------------------------------------------

  /** Sweeps 1 and 2, as the state sweep 3 starts from. */
  function Sweeps12(g: Matrix, maxAgg: int): (r: Sweep)
    requires ValidSquare(g)
    ensures Fits(g, r) && CountBehind(r)
  {
    Pass2Facts(g, maxAgg);
    var s1 := Pass1(g, maxAgg);
    var j := Pass2(g, s1, maxAgg);
    Sweep(j.lab, s1.numAgg, j.numLeft)
  }

  /** aggregation_vmb on the filtered graph g, exactly as written: step 3 is
      guarded by the counter num_left. */
  function VmbAsWritten(g: Matrix, maxAgg: int, minCdof: int): (r: AggResult)
    requires ValidSquare(g)
  {
    var s1 := Pass1(g, maxAgg);
    if s1.numAgg < minCdof then AggResult(ErrorAmgCoarsening, s1.lab, s1.numAgg)
    else
      var s3 := Pass3Loop(g, maxAgg, Sweeps12(g, maxAgg));
      AggResult(Success, s3.lab, s3.numAgg)
  }

  /** aggregation_vmb on the filtered graph g with step 3 guarded by the
      presence of an unassigned vertex. */
  function Vmb(g: Matrix, maxAgg: int, minCdof: int): (r: AggResult)
    requires ValidSquare(g)
  {
    var s1 := Pass1(g, maxAgg);
    if s1.numAgg < minCdof then AggResult(ErrorAmgCoarsening, s1.lab, s1.numAgg)
    else
      var s3 := Pass3Fixed(g, maxAgg, Sweeps12(g, maxAgg));
      AggResult(Success, s3.lab, s3.numAgg)
  }

  /** aggregation_vmb on a matrix: filter, then aggregate. */
  function AggregationVmb(a: Matrix, diag: seq<real>, theta: real, maxAgg: int, minCdof: int): (r: AggResult)
    requires ValidSquare(a) && |diag| == a.rows
  {
    Vmb(Strength.StrongGraph(a, diag, theta), maxAgg, minCdof)
  }

  // ---------------------------------------------------------------------------
  // Properties of the routine
  // ---------------------------------------------------------------------------

  /** An aggregation of g's vertices as the routine promises it: one label per
      vertex, each a marker or an id below numAgg; every id has a member; no
      aggregate exceeds the cap; exactly the vertices with a one-entry row are
      isolated. */
  predicate Aggregated(g: Matrix, lab: seq<int>, numAgg: int, maxAgg: int)
    requires ValidSquare(g)
  {
    && |lab| == g.rows && LabelsIn(lab, numAgg) && EveryIdUsed(lab, numAgg) && Capped(lab, numAgg, maxAgg)
    && (forall v :: 0 <= v < g.rows ==> (lab[v] == Unpt <==> RowLen(g, v) == 1))
  }

  /** The state after sweeps 1 and 2. */
  lemma Sweeps12Facts(g: Matrix, maxAgg: int)
    requires ValidSquare(g)
    ensures Fits(g, Pass1(g, maxAgg))
    ensures var s := Sweeps12(g, maxAgg);
      var s1 := Pass1(g, maxAgg);
      && Aggregated(g, s.lab, s.numAgg, maxAgg) && s.numAgg == s1.numAgg
      && OnlyJoined(s1.lab, s.lab, s1.numAgg, 0) && JoinRules(g, s1.lab, s.lab, maxAgg, 0)
      && Drift(s) == Drift(s1)
  {
    Pass1Facts(g, maxAgg);
    Pass2Facts(g, maxAgg);
  }

  /** The join rule decides each vertex: two labellings that only move
      vertices unassigned after sweep 1 into sweep-1 aggregates, obey the join
      rule everywhere and agree after v, agree at v. */
  lemma JoinRuleAgree(g: Matrix, snap: seq<int>, k: nat, maxAgg: int, lab1: seq<int>, lab2: seq<int>, v: nat)
    requires ValidSquare(g) && v < g.rows && |snap| == g.rows
    requires OnlyJoined(snap, lab1, k, 0) && OnlyJoined(snap, lab2, k, 0)
    requires JoinRules(g, snap, lab1, maxAgg, 0) && JoinRules(g, snap, lab2, maxAgg, 0)
    requires lab1[v + 1..] == lab2[v + 1..]
    ensures lab1[v] == lab2[v]
  {
    if snap[v] == Unassigned {
      assert AtTurn(snap, lab2, v) == AtTurn(snap, lab1, v);
      assert JoinRule(g, snap, lab1, maxAgg, v) && JoinRule(g, snap, lab2, maxAgg, v);
      if lab1[v] != Unassigned && lab2[v] != Unassigned {
        var q1 :| JoinedAt(g, snap, lab1, maxAgg, v, q1);
        var q2 :| JoinedAt(g, snap, lab2, maxAgg, v, q2);
        assert q1 == q2;
      }
    }
  }

  /** Two labellings obeying the join rule everywhere agree from vertex i on. */
  lemma {:induction false} JoinRulesAgree(g: Matrix, snap: seq<int>, k: nat, maxAgg: int, lab1: seq<int>, lab2: seq<int>, i: nat)
    requires ValidSquare(g) && i <= g.rows && |snap| == g.rows
    requires OnlyJoined(snap, lab1, k, 0) && OnlyJoined(snap, lab2, k, 0)
    requires JoinRules(g, snap, lab1, maxAgg, 0) && JoinRules(g, snap, lab2, maxAgg, 0)
    ensures lab1[i..] == lab2[i..]
    decreases g.rows - i
  {
    if i < g.rows {
      JoinRulesAgree(g, snap, k, maxAgg, lab1, lab2, i + 1);
      JoinRuleAgree(g, snap, k, maxAgg, lab1, lab2, i);
      assert lab1[i..] == [lab1[i]] + lab1[i + 1..];
      assert lab2[i..] == [lab2[i]] + lab2[i + 1..];
    }
  }

  /** Sweep 2 is the only way to complete sweep 1 by the join rule: any
      labelling that only moves vertices unassigned after sweep 1 into
      sweep-1 aggregates and obeys the join rule at every vertex is the
      labelling sweeps 1 and 2 produce. */
  lemma Sweeps12Unique(g: Matrix, maxAgg: int, lab: seq<int>)
    requires ValidSquare(g) && |lab| == g.rows
    requires OnlyJoined(Pass1(g, maxAgg).lab, lab, Pass1(g, maxAgg).numAgg, 0)
    requires JoinRules(g, Pass1(g, maxAgg).lab, lab, maxAgg, 0)
    ensures lab == Sweeps12(g, maxAgg).lab
  {
    Sweeps12Facts(g, maxAgg);
    var s1 := Pass1(g, maxAgg);
    JoinRulesAgree(g, s1.lab, s1.numAgg, maxAgg, lab, Sweeps12(g, maxAgg).lab, 0);
    assert lab[0..] == lab && Sweeps12(g, maxAgg).lab[0..] == Sweeps12(g, maxAgg).lab;
  }

  /** Whatever step 3 does to the state after sweeps 1 and 2 (nothing, or one
      sweep) keeps it an aggregation, keeps every decided label, lets no
      aggregate of sweeps 1 and 2 change size, and only opens new ids. */
  lemma Pass3Keeps(g: Matrix, maxAgg: int, t: Sweep)
    requires ValidSquare(g)
    requires t == Sweeps12(g, maxAgg) || t == Pass3Sweep(g, maxAgg, Sweeps12(g, maxAgg), 0)
    ensures var s := Sweeps12(g, maxAgg);
      && Aggregated(g, t.lab, t.numAgg, maxAgg) && Fits(g, t) && t.numAgg >= s.numAgg
      && (forall v :: 0 <= v < g.rows ==> t.lab[v] == s.lab[v] || (s.lab[v] == Unassigned && t.lab[v] >= s.numAgg))
      && (forall b :: 0 <= b < s.numAgg ==> Size(t.lab, b) == Size(s.lab, b))
      && Grows(s.lab, t.lab)
  {
    var s := Sweeps12(g, maxAgg);
    Sweeps12Facts(g, maxAgg);
    if t != s {
      Pass3SweepFacts(g, maxAgg, s);
      forall b | 0 <= b < t.numAgg ensures b in t.lab && Size(t.lab, b) <= Cap(maxAgg) {
        if b < s.numAgg {
          assert b in s.lab && Size(t.lab, b) == Size(s.lab, b);
        }
      }
    }
    forall b | 0 <= b ensures Size(t.lab, b) >= Size(s.lab, b) {
      if b >= s.numAgg {
        assert b !in s.lab;
      }
    }
  }

  /** The routine as corrected: on success every vertex is decided and the
      labels form a capped aggregation with no empty id; it fails exactly when
      sweep 1 forms fewer than minCdof aggregates, and then returns the labels
      of sweep 1. There are never more aggregates than vertices. */
  lemma VmbFacts(g: Matrix, maxAgg: int, minCdof: int)
    requires ValidSquare(g)
    ensures var r := Vmb(g, maxAgg, minCdof);
      && Aggregated(g, r.lab, r.numAgg, maxAgg) && r.numAgg <= g.rows
      && (r.status == ErrorAmgCoarsening <==> Pass1(g, maxAgg).numAgg < minCdof)
      && (r.status == Success || r.status == ErrorAmgCoarsening)
      && (r.status == ErrorAmgCoarsening ==> r.lab == Pass1(g, maxAgg).lab)
      && (r.status == Success ==> Covered(r.lab))
  {
    var r := Vmb(g, maxAgg, minCdof);
    Pass1Facts(g, maxAgg);
    if Pass1(g, maxAgg).numAgg >= minCdof {
      var s := Sweeps12(g, maxAgg);
      var t := Pass3Fixed(g, maxAgg, s);
      Pass3Keeps(g, maxAgg, t);
      if Unassigned in s.lab {
        Pass3SweepFacts(g, maxAgg, s);
      }
    }
    IdsBoundedByVertices(r.lab, r.numAgg);
  }

  /** The routine as written satisfies everything above except coverage: its
      step 3 may be skipped while a vertex is still unassigned. */
  lemma VmbAsWrittenFacts(g: Matrix, maxAgg: int, minCdof: int)
    requires ValidSquare(g)
    ensures var r := VmbAsWritten(g, maxAgg, minCdof);
      && Aggregated(g, r.lab, r.numAgg, maxAgg) && r.numAgg <= g.rows
      && (r.status == ErrorAmgCoarsening <==> Pass1(g, maxAgg).numAgg < minCdof)
      && (r.status == Success || r.status == ErrorAmgCoarsening)
      && (r.status == ErrorAmgCoarsening ==> r.lab == Pass1(g, maxAgg).lab)
  {
    var r := VmbAsWritten(g, maxAgg, minCdof);
    Pass1Facts(g, maxAgg);
    if Pass1(g, maxAgg).numAgg >= minCdof {
      var s := Sweeps12(g, maxAgg);
      Pass3AtMostOnce(g, maxAgg, s);
      Pass3Keeps(g, maxAgg, Pass3Loop(g, maxAgg, s));
    }
    IdsBoundedByVertices(r.lab, r.numAgg);
  }

  /** The join rule of sweep 2 seen on the final labels: a vertex unassigned
      after sweep 1 that ends in a sweep-1 aggregate took the aggregate of the
      first position in its row whose sweep-1 aggregate had room, every earlier
      such aggregate being full; a vertex that ends in an aggregate opened by
      step 3 found every sweep-1 aggregate of its row full. */
  lemma VmbJoinRule(g: Matrix, maxAgg: int, minCdof: int, v: nat)
    requires ValidSquare(g) && v < g.rows
    requires Vmb(g, maxAgg, minCdof).status == Success
    requires Pass1(g, maxAgg).lab[v] == Unassigned
    ensures var r := Vmb(g, maxAgg, minCdof);
      var s1 := Pass1(g, maxAgg);
      && |r.lab| == g.rows
      && (r.lab[v] < s1.numAgg ==> exists q :: JoinedAt(g, s1.lab, r.lab, maxAgg, v, q))
      && (r.lab[v] >= s1.numAgg ==> FullBefore(g, s1.lab, AtTurn(s1.lab, r.lab, v), maxAgg, v, g.ia[v + 1]))
  {
    var s := Sweeps12(g, maxAgg);
    var s1 := Pass1(g, maxAgg);
    var t := Pass3Fixed(g, maxAgg, s);
    Sweeps12Facts(g, maxAgg);
    Pass3Keeps(g, maxAgg, t);
    VmbFacts(g, maxAgg, minCdof);
    assert JoinRule(g, s1.lab, s.lab, maxAgg, v);
    TurnOutside(g, s1.lab, s1.numAgg, s.lab, t.lab, v);
    if s.lab[v] == Unassigned {
      FullOutside(g, s1.lab, s1.numAgg, AtTurn(s1.lab, s.lab, v), AtTurn(s1.lab, t.lab, v), maxAgg, v, g.ia[v + 1]);
    } else {
      var q :| JoinedAt(g, s1.lab, s.lab, maxAgg, v, q);
      FullOutside(g, s1.lab, s1.numAgg, AtTurn(s1.lab, s.lab, v), AtTurn(s1.lab, t.lab, v), maxAgg, v, q);
      assert JoinedAt(g, s1.lab, t.lab, maxAgg, v, q);
    }
  }

  /** Step 3 only labels unassigned vertices with new ids, so the sweep-1
      aggregates look the same to sweep 2 in the final labels. */
  lemma TurnOutside(g: Matrix, snap: seq<int>, k: nat, lab: seq<int>, lab': seq<int>, v: nat)
    requires ValidSquare(g) && v < g.rows && |snap| == g.rows && |lab| == g.rows && |lab'| == g.rows
    requires forall w :: 0 <= w < g.rows ==> lab'[w] == lab[w] || (lab[w] == Unassigned && lab'[w] >= k)
    ensures forall a :: 0 <= a < k ==> Size(AtTurn(snap, lab', v), a) == Size(AtTurn(snap, lab, v), a)
  {
    var x := AtTurn(snap, lab, v);
    var y := AtTurn(snap, lab', v);
    assert forall w :: 0 <= w < |x| ==> y[w] == x[w] || (x[w] == Unassigned && y[w] >= k) by {
      forall w | 0 <= w < |x| ensures y[w] == x[w] || (x[w] == Unassigned && y[w] >= k) {
        if w > v {
          assert x[w] == lab[w] && y[w] == lab'[w];
        }
      }
    }
    forall a | 0 <= a < k ensures Size(y, a) == Size(x, a) {
      SizeOutside(x, y, k, a);
    }
  }

  /** Fullness of sweep-1 aggregates carries over between labels that agree on
      their sizes. */
  lemma FullOutside(g: Matrix, snap: seq<int>, k: nat, cur: seq<int>, cur': seq<int>, maxAgg: int, v: nat, q: int)
    requires ValidSquare(g) && v < g.rows && |snap| == g.rows && LabelsIn(snap, k) && g.ia[v] <= q <= g.ia[v + 1]
    requires forall a :: 0 <= a < k ==> Size(cur', a) == Size(cur, a)
    requires FullBefore(g, snap, cur, maxAgg, v, q)
    ensures FullBefore(g, snap, cur', maxAgg, v, q)
  {
    forall q' | g.ia[v] <= q' < q && snap[g.entries[q'].col] > Unpt
      ensures Size(cur', snap[g.entries[q'].col]) >= maxAgg
    {
      assert Size(cur', snap[g.entries[q'].col]) == Size(cur, snap[g.entries[q'].col]);
    }
  }

  // ---------------------------------------------------------------------------
  // The counter num_left can run ahead
  // ---------------------------------------------------------------------------

  /** The 3x3 matrix
        [ 2 -1  0 ]
        [ 0  2  0 ]
        [ 0 -1  2 ]
      in CSR storage. Every off-diagonal entry is negative, so with threshold 0
      it is its own filtered graph. Row 1 holds only its diagonal, yet rows 0
      and 2 name vertex 1. */
  function Lopsided(): (a: Matrix)
    ensures ValidSquare(a)
  {
    Matrix(3, 3, [0, 2, 3, 5], [Entry(0, 2.0), Entry(1, -1.0), Entry(1, 2.0), Entry(1, -1.0), Entry(2, 2.0)])
  }

  /** With cap 2 and MIN_CDOF 1, sweep 1 seeds aggregate 0 = {2, 1} at vertex
      2, then marks vertex 1 isolated: num_left is lowered twice for vertex 1
      and reaches 0 while vertex 0 is still unassigned. Vertex 0 finds no room
      in sweep 2, step 3 never runs, and the routine reports success with
      vertex 0 unassigned. The corrected routine puts vertex 0 in a new
      aggregate 1. */
  lemma AsWrittenLeavesVertex()
    ensures VmbAsWritten(Lopsided(), 2, 1) == AggResult(Success, [Unassigned, Unpt, 0], 1)
    ensures !Covered(VmbAsWritten(Lopsided(), 2, 1).lab)
    ensures Vmb(Lopsided(), 2, 1) == AggResult(Success, [1, Unpt, 0], 2)
  {
    var g := Lopsided();
    var p1 := Sweep([Unassigned, Unpt, 0], 1, 0);
    LopsidedPass1();
    LopsidedSweeps12();
    // step 3 as written: num_left is 0
    assert Pass3Loop(g, 2, p1) == p1;
    LopsidedPass3();
  }

  /** The filtered graph with rows {3}, {1, 2}, {1}, {3, 0}: its pattern is
      symmetric and no row repeats a column, but rows 0 and 2 store no
      diagonal. */
  function NoDiagonal(): (a: Matrix)
    ensures ValidSquare(a)
  {
    Matrix(4, 4, [0, 1, 3, 4, 6],
      [Entry(3, -1.0), Entry(1, 2.0), Entry(2, -1.0), Entry(1, -1.0), Entry(3, 2.0), Entry(0, -1.0)])
  }

  /** A symmetric pattern alone does not keep num_left exact: with cap 2 and
      MIN_CDOF 1 the routine as written still reports success with vertex 1
      unassigned, where the corrected routine opens aggregate 1 for it. */
  lemma SymmetricLeavesVertex()
    ensures VmbAsWritten(NoDiagonal(), 2, 1) == AggResult(Success, [Unpt, Unassigned, Unpt, 0], 1)
    ensures !Covered(VmbAsWritten(NoDiagonal(), 2, 1).lab)
    ensures Vmb(NoDiagonal(), 2, 1) == AggResult(Success, [Unpt, 1, Unpt, 0], 2)
  {
    var g := NoDiagonal();
    var p1 := Sweep([Unpt, Unassigned, Unpt, 0], 1, 0);
    NoDiagonalPass1();
    NoDiagonalSweeps12();
    // step 3 as written: num_left is 0
    assert Pass3Loop(g, 2, p1) == p1;
    NoDiagonalPass3();
  }

  /** Sweep 1 on the graph without diagonals: vertex 3 seeds aggregate 0 and
      absorbs vertex 0, which is then marked isolated and counted a second
      time; vertex 1 sees the isolated vertex 2 in its row and stays
      unassigned. */
  lemma NoDiagonalPass1()
    ensures Pass1(NoDiagonal(), 2) == Sweep([Unpt, Unassigned, Unpt, 0], 1, 0)
  {
    var g := NoDiagonal();
    var s0 := Initial(4);
    assert s0.lab == [Unassigned, Unassigned, Unassigned, Unassigned];
    // vertex 3: seeds aggregate 0 and absorbs vertex 0
    assert RowLen(g, 3) == 2 && RowFree(g, s0.lab, 3);
    var a0 := Sweep([Unassigned, Unassigned, Unassigned, 0], 0, 3);
    var a1 := Sweep([0, Unassigned, Unassigned, 0], 0, 2);
    assert Absorb(g, 3, 2, false, 0, 6, 2, a1) == a1;
    assert Absorb(g, 3, 2, false, 0, 5, 1, a0) == a1;
    assert Absorb(g, 3, 2, false, 0, 4, 1, a0) == a1;
    var p3 := Sweep([0, Unassigned, Unassigned, 0], 1, 2);
    assert Pass1Vertex(g, 2, s0, 3) == p3;
    // vertex 2: isolated
    var p2 := Sweep([0, Unassigned, Unpt, 0], 1, 1);
    assert RowLen(g, 2) == 1;
    assert Pass1Vertex(g, 2, p3, 2) == p2;
    // vertex 1: its row names the isolated vertex 2
    assert g.entries[2].col == 2 && p2.lab[2] == Unpt;
    assert !RowFree(g, p2.lab, 1);
    assert Pass1Vertex(g, 2, p2, 1) == p2;
    // vertex 0: isolated, counted a second time
    var p0 := Sweep([Unpt, Unassigned, Unpt, 0], 1, 0);
    assert RowLen(g, 0) == 1;
    assert Pass1Vertex(g, 2, p2, 0) == p0;
    assert Pass1From(g, 2, p2, 1) == p0;
    assert Pass1From(g, 2, p2, 2) == p0;
    assert Pass1From(g, 2, p3, 3) == p0;
    assert Pass1From(g, 2, s0, 4) == p0;
  }

  /** Sweep 2 on the graph without diagonals changes nothing: vertex 1 finds
      no sweep-1 aggregate in its row. */
  lemma NoDiagonalSweeps12()
    ensures Sweeps12(NoDiagonal(), 2) == Sweep([Unpt, Unassigned, Unpt, 0], 1, 0)
  {
    NoDiagonalPass1();
    NoDiagonalPass2();
  }

  /** Vertex 1's row holds only itself and the isolated vertex 2, so no
      position has room. */
  lemma NoDiagonalPass2()
    ensures var p1 := Sweep([Unpt, Unassigned, Unpt, 0], 1, 0);
      Pass2(NoDiagonal(), p1, 2) == Join(p1.lab, [1], 0)
  {
    var g := NoDiagonal();
    var p1 := Sweep([Unpt, Unassigned, Unpt, 0], 1, 0);
    var snap := p1.lab;
    var st := Join(snap, [1], 0);
    assert seq(1, a => Size(snap, a)) == [1] by {
      assert Size(snap, 0) == 1;
    }
    assert !Room(g, snap, [1], 2, 1) && !Room(g, snap, [1], 2, 2);
    assert FirstRoom(g, snap, [1], 2, 1, 3) == None;
    assert FirstRoom(g, snap, [1], 2, 1, 2) == None;
    assert FirstRoom(g, snap, [1], 2, 1, 1) == None;
    assert Pass2Vertex(g, snap, 2, st, 3) == st;
    assert Pass2Vertex(g, snap, 2, st, 2) == st;
    assert Pass2Vertex(g, snap, 2, st, 1) == st;
    assert Pass2Vertex(g, snap, 2, st, 0) == st;
    assert Pass2From(g, snap, 2, st, 0) == st;
    assert Pass2From(g, snap, 2, st, 1) == st;
    assert Pass2From(g, snap, 2, st, 2) == st;
    assert Pass2From(g, snap, 2, st, 3) == st;
    assert Pass2From(g, snap, 2, st, 4) == st;
  }

  /** The corrected step 3 on the graph without diagonals: vertex 1 seeds
      aggregate 1; vertex 2 is not free. */
  lemma NoDiagonalPass3()
    ensures Pass3Fixed(NoDiagonal(), 2, Sweep([Unpt, Unassigned, Unpt, 0], 1, 0)) == Sweep([Unpt, 1, Unpt, 0], 2, -1)
  {
    var g := NoDiagonal();
    var p1 := Sweep([Unpt, Unassigned, Unpt, 0], 1, 0);
    var c0 := Sweep([Unpt, 1, Unpt, 0], 1, -1);
    assert Absorb(g, 1, 2, true, 1, 3, 1, c0) == c0;
    assert Absorb(g, 1, 2, true, 1, 2, 1, c0) == c0;
    assert Absorb(g, 1, 2, true, 1, 1, 1, c0) == c0;
    var c1 := Sweep([Unpt, 1, Unpt, 0], 2, -1);
    assert Seed(g, 1, 2, true, p1) == c1;
    assert Pass3Sweep(g, 2, c1, 4) == c1;
    assert Pass3Sweep(g, 2, c1, 3) == c1;
    assert Pass3Sweep(g, 2, c1, 2) == c1;
    assert Pass3Sweep(g, 2, p1, 1) == c1;
    assert Pass3Sweep(g, 2, p1, 0) == c1;
    assert Unassigned in p1.lab;
    assert Pass3Fixed(g, 2, p1) == c1;
  }

  /** Sweep 1 on the lopsided graph: vertex 2 seeds aggregate 0 and absorbs
      vertex 1, which is then marked isolated and counted a second time. */
  lemma LopsidedPass1()
    ensures Pass1(Lopsided(), 2) == Sweep([Unassigned, Unpt, 0], 1, 0)
  {
    var g := Lopsided();
    var s0 := Initial(3);
    assert s0.lab == [Unassigned, Unassigned, Unassigned];
    // vertex 2: seeds aggregate 0 and absorbs vertex 1
    assert RowLen(g, 2) == 2 && RowFree(g, s0.lab, 2);
    var a0 := Sweep([Unassigned, Unassigned, 0], 0, 2);
    var a1 := Sweep([Unassigned, 0, 0], 0, 1);
    assert Absorb(g, 2, 2, false, 0, 5, 2, a1) == a1;
    assert Absorb(g, 2, 2, false, 0, 4, 2, a1) == a1;
    assert Absorb(g, 2, 2, false, 0, 3, 1, a0) == a1;
    var p2 := Sweep([Unassigned, 0, 0], 1, 1);
    assert Pass1Vertex(g, 2, s0, 2) == p2;
    // vertex 1: isolated, counted a second time
    var p1 := Sweep([Unassigned, Unpt, 0], 1, 0);
    assert RowLen(g, 1) == 1;
    assert Pass1Vertex(g, 2, p2, 1) == p1;
    // vertex 0: its row names the isolated vertex 1
    assert g.entries[1].col == 1 && p1.lab[1] == Unpt;
    assert !RowFree(g, p1.lab, 0);
    assert Pass1Vertex(g, 2, p1, 0) == p1;
    assert Pass1From(g, 2, p1, 1) == p1;
    assert Pass1From(g, 2, p2, 2) == p1;
    assert Pass1From(g, 2, s0, 3) == p1;
  }

  /** Sweep 2 on the lopsided graph changes nothing: vertex 0 finds no sweep-1
      aggregate in its row. */
  lemma LopsidedSweeps12()
    ensures Sweeps12(Lopsided(), 2) == Sweep([Unassigned, Unpt, 0], 1, 0)
  {
    var g := Lopsided();
    LopsidedPass1();
    var p1 := Sweep([Unassigned, Unpt, 0], 1, 0);
    var snap := p1.lab;
    var st := Join(snap, [1], 0);
    assert seq(1, a => Size(snap, a)) == [1] by {
      assert Size(snap, 0) == 1;
    }
    assert !Room(g, snap, [1], 2, 0) && !Room(g, snap, [1], 2, 1);
    assert FirstRoom(g, snap, [1], 2, 0, 2) == None;
    assert FirstRoom(g, snap, [1], 2, 0, 1) == None;
    assert FirstRoom(g, snap, [1], 2, 0, 0) == None;
    assert Pass2Vertex(g, snap, 2, st, 0) == st;
    assert Pass2From(g, snap, 2, st, 0) == st;
    assert Pass2From(g, snap, 2, st, 1) == st;
    assert Pass2From(g, snap, 2, st, 2) == st;
    assert Pass2From(g, snap, 2, st, 3) == st;
    assert Pass2(g, p1, 2) == st;
    assert Sweeps12(g, 2) == p1;
  }

  /** The corrected step 3 on the lopsided graph: vertex 0 seeds aggregate 1;
      vertex 1 is not free. */
  lemma LopsidedPass3()
    ensures Pass3Fixed(Lopsided(), 2, Sweep([Unassigned, Unpt, 0], 1, 0)) == Sweep([1, Unpt, 0], 2, -1)
  {
    var g := Lopsided();
    var p1 := Sweep([Unassigned, Unpt, 0], 1, 0);
    var c0 := Sweep([1, Unpt, 0], 1, -1);
    assert Absorb(g, 0, 2, true, 1, 2, 1, c0) == c0;
    assert Absorb(g, 0, 2, true, 1, 1, 1, c0) == c0;
    assert Absorb(g, 0, 2, true, 1, 0, 1, c0) == c0;
    var c1 := Sweep([1, Unpt, 0], 2, -1);
    assert Seed(g, 0, 2, true, p1) == c1;
    assert Pass3Sweep(g, 2, c1, 3) == c1;
    assert Pass3Sweep(g, 2, c1, 2) == c1;
    assert Pass3Sweep(g, 2, c1, 1) == c1;
    assert Pass3Sweep(g, 2, p1, 0) == c1;
    assert Unassigned in p1.lab;
    assert Pass3Fixed(g, 2, p1) == c1;
  }

  // ---------------------------------------------------------------------------
  // When the counter is exact
  // ---------------------------------------------------------------------------

  /** Row r stores an entry in column c. */
  ghost predicate HasEntry(g: Matrix, r: int, c: int)
    requires Valid(g)
  {
    0 <= r < g.rows && exists q :: g.ia[r] <= q < g.ia[r + 1] && g.entries[q].col == c
  }

  /** Row v stores an off-diagonal entry. */
  ghost predicate HasOffDiag(g: Matrix, v: nat)
    requires Valid(g) && v < g.rows
  {
    exists q :: g.ia[v] <= q < g.ia[v + 1] && g.entries[q].col != v
  }

  /** Row i stores no column twice. */
  predicate DistinctRow(g: Matrix, i: nat)
    requires Valid(g) && i < g.rows
  {
    forall q, q' :: g.ia[i] <= q < q' < g.ia[i + 1] ==> g.entries[q].col != g.entries[q'].col
  }

  /** A graph stored the way a symmetric matrix is: every row stores its
      diagonal, no row stores a column twice, and the pattern is symmetric. */
  ghost predicate WellFormed(g: Matrix)
    requires ValidSquare(g)
  {
    && (forall i :: 0 <= i < g.rows ==> HasEntry(g, i, i))
    && (forall i :: 0 <= i < g.rows ==> DistinctRow(g, i))
    && (forall i, q :: 0 <= i < g.rows && g.ia[i] <= q < g.ia[i + 1] ==> HasEntry(g, g.entries[q].col, i))
  }

  /** num_left is exact, and every vertex among 0 .. i-1 that is already
      decided has an off-diagonal entry. */
  ghost predicate Pass1Exact(g: Matrix, s: Sweep, i: nat)
    requires ValidSquare(g) && i <= g.rows && |s.lab| == g.rows
  {
    && Drift(s) == 0
    && (forall v :: 0 <= v < i && s.lab[v] != Unassigned ==> HasOffDiag(g, v))
  }

  /** A one-entry row that stores its diagonal has no off-diagonal entry. */
  lemma OnlyDiagonal(g: Matrix, v: nat)
    requires ValidSquare(g) && v < g.rows && RowLen(g, v) == 1 && HasEntry(g, v, v)
    ensures !HasOffDiag(g, v)
  {
    var qd :| g.ia[v] <= qd < g.ia[v + 1] && g.entries[qd].col == v;
    forall q | g.ia[v] <= q < g.ia[v + 1] ensures g.entries[q].col == v {
      assert q == qd;
    }
  }

  lemma Pass1ExactStep(g: Matrix, maxAgg: int, s: Sweep, i: nat)
    requires ValidSquare(g) && WellFormed(g) && 0 < i <= g.rows
    requires Pass1Inv(g, maxAgg, s, i) && Pass1Exact(g, s, i)
    ensures Pass1Exact(g, Pass1Vertex(g, maxAgg, s, i - 1), i - 1)
  {
    var v := i - 1;
    if RowLen(g, v) == 1 {
      Pass1ExactIsolated(g, maxAgg, s, i);
    } else if RowFree(g, s.lab, v) {
      Pass1ExactSeed(g, maxAgg, s, i);
    }
  }

  lemma Pass1ExactIsolated(g: Matrix, maxAgg: int, s: Sweep, i: nat)
    requires ValidSquare(g) && WellFormed(g) && 0 < i <= g.rows
    requires Pass1Inv(g, maxAgg, s, i) && Pass1Exact(g, s, i) && RowLen(g, i - 1) == 1
    ensures Pass1Exact(g, Sweep(s.lab[i - 1 := Unpt], s.numAgg, s.numLeft - 1), i - 1)
  {
    var v := i - 1;
    assert HasEntry(g, v, v);
    OnlyDiagonal(g, v);
    assert s.lab[v] == Unassigned;
    SizeUpdate(s.lab, v, Unpt, Unassigned);
  }

  lemma Pass1ExactSeed(g: Matrix, maxAgg: int, s: Sweep, i: nat)
    requires ValidSquare(g) && WellFormed(g) && 0 < i <= g.rows
    requires Pass1Inv(g, maxAgg, s, i) && Pass1Exact(g, s, i) && RowFree(g, s.lab, i - 1)
    ensures Pass1Exact(g, Seed(g, i - 1, maxAgg, false, s), i - 1)
  {
    var v := i - 1;
    var r := Seed(g, v, maxAgg, false, s);
    SeedRowFresh(g, maxAgg, s, i);
    SeedFacts(g, v, maxAgg, false, s);
    forall w | 0 <= w < v && r.lab[w] != Unassigned ensures HasOffDiag(g, w) {
      if s.lab[w] == Unassigned {
        NamedHasOffDiag(g, v, w);
      }
    }
  }

  /** The row a sweep-1 seed starts from is unassigned and names only
      unassigned vertices, each once. */
  lemma SeedRowFresh(g: Matrix, maxAgg: int, s: Sweep, i: nat)
    requires ValidSquare(g) && WellFormed(g) && 0 < i <= g.rows
    requires Pass1Inv(g, maxAgg, s, i) && RowFree(g, s.lab, i - 1)
    ensures s.lab[i - 1] == Unassigned && FreshRest(g, i - 1, g.ia[i - 1], s.lab)
  {
    var v := i - 1;
    assert HasEntry(g, v, v);
    var qd :| g.ia[v] <= qd < g.ia[v + 1] && g.entries[qd].col == v;
    assert s.lab[v] < Unpt;
    assert DistinctRow(g, v);
  }

  /** A vertex named off the diagonal in row v names v back, so its own row
      has an off-diagonal entry. */
  lemma NamedHasOffDiag(g: Matrix, v: nat, w: nat)
    requires ValidSquare(g) && WellFormed(g) && v < g.rows && w < g.rows
    requires InRowFrom(g, v, g.ia[v], w)
    ensures HasOffDiag(g, w)
  {
    var q :| g.ia[v] <= q < g.ia[v + 1] && g.ia[v] <= q && g.entries[q].col == w && w != v;
    assert HasEntry(g, g.entries[q].col, v);
    var q' :| g.ia[w] <= q' < g.ia[w + 1] && g.entries[q'].col == v;
  }

  lemma {:induction false} Pass1ExactFrom(g: Matrix, maxAgg: int, s: Sweep, i: nat)
    requires ValidSquare(g) && WellFormed(g) && i <= g.rows
    requires Pass1Inv(g, maxAgg, s, i) && Pass1Exact(g, s, i)
    ensures Drift(Pass1From(g, maxAgg, s, i)) == 0
    decreases i
  {
    if i > 0 {
      Pass1VertexInv(g, maxAgg, s, i);
      Pass1ExactStep(g, maxAgg, s, i);
      Pass1ExactFrom(g, maxAgg, Pass1Vertex(g, maxAgg, s, i - 1), i - 1);
    }
  }

  /** On a well-formed graph num_left counts exactly the unassigned vertices,
      so the routine as written and the corrected routine agree and the
      routine as written leaves no vertex unassigned on success. */
  lemma WellFormedAgree(g: Matrix, maxAgg: int, minCdof: int)
    requires ValidSquare(g) && WellFormed(g)
    ensures VmbAsWritten(g, maxAgg, minCdof) == Vmb(g, maxAgg, minCdof)
    ensures VmbAsWritten(g, maxAgg, minCdof).status == Success ==> Covered(VmbAsWritten(g, maxAgg, minCdof).lab)
  {
    var s0 := Initial(g.rows);
    SizeConstant(g.rows, Unassigned);
    assert Pass1Inv(g, maxAgg, s0, g.rows);
    Pass1ExactFrom(g, maxAgg, s0, g.rows);
    Sweeps12Facts(g, maxAgg);
    var s := Sweeps12(g, maxAgg);
    Pass3AtMostOnce(g, maxAgg, s);
    assert s.numLeft > 0 <==> Unassigned in s.lab;
    VmbFacts(g, maxAgg, minCdof);
  }
}
