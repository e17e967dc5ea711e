/** The aggregation vector shared by both aggregation algorithms: one integer
    per vertex, either an aggregate id (>= 0) or one of two markers. */
module Labels {

  /** Marker every vertex starts with: not yet decided. */
  const Unassigned: int := -2

  /** Marker of an isolated vertex, never aggregated (UNPT). */
  const Unpt: int := -1

  /** Status codes of the aggregation routines and of the setup driver. */
  datatype Status = Success | ErrorAmgCoarsening | ErrorAmgAggType

  datatype Option<T> = None | Some(value: T)

  /** Labels and aggregate count returned by an aggregation routine. */
  datatype AggResult = AggResult(status: Status, lab: seq<int>, numAgg: nat)

  /** Number of vertices carrying label a (the aggregate's size when a >= 0). */
  function Size(lab: seq<int>, a: int): nat {
    multiset(lab)[a]
  }

  /** Every label is a marker or an id below numAgg. */
  predicate LabelsIn(lab: seq<int>, numAgg: int) {
    forall v :: 0 <= v < |lab| ==> lab[v] == Unassigned || lab[v] == Unpt || 0 <= lab[v] < numAgg
  }

  /** No vertex is left undecided. */
  predicate Covered(lab: seq<int>) {
    forall v :: 0 <= v < |lab| ==> lab[v] != Unassigned
  }

  /** Every id below numAgg has at least one member. */
  predicate EveryIdUsed(lab: seq<int>, numAgg: int) {
    forall a :: 0 <= a < numAgg ==> a in lab
  }

  /** The largest aggregate the greedy algorithm can form: a seed always joins
      its own aggregate, so a cap below 1 still allows one member. */
  function Cap(maxAgg: int): int {
    if maxAgg < 1 then 1 else maxAgg
  }

  predicate Capped(lab: seq<int>, numAgg: int, maxAgg: int) {
    forall a :: 0 <= a < numAgg ==> Size(lab, a) <= Cap(maxAgg)
  }

  /** Overwriting one label moves one member from the old label to the new. */
  lemma SizeUpdate(lab: seq<int>, v: int, x: int, a: int)
    requires 0 <= v < |lab|
    ensures Size(lab[v := x], a) == Size(lab, a) - (if lab[v] == a then 1 else 0) + (if x == a then 1 else 0)
  {
  }

  /** Extending a prefix by one label counts that label once more. */
  lemma SizePrefix(lab: seq<int>, k: nat, a: int)
    requires k < |lab|
    ensures Size(lab[..k + 1], a) == Size(lab[..k], a) + (if lab[k] == a then 1 else 0)
  {
    assert lab[..k + 1] == lab[..k] + [lab[k]];
  }

  /** Relabelling unassigned vertices with ids k and above leaves the size of
      every id below k unchanged. */
  lemma {:induction false} SizeOutside(x: seq<int>, y: seq<int>, k: int, a: int)
    requires |x| == |y| && 0 <= a < k
    requires forall w :: 0 <= w < |x| ==> y[w] == x[w] || (x[w] == Unassigned && y[w] >= k)
    ensures Size(y, a) == Size(x, a)
  {
    if |x| > 0 {
      var n := |x| - 1;
      SizeOutside(x[..n], y[..n], k, a);
      SizePrefix(x, n, a);
      SizePrefix(y, n, a);
      assert x[..n + 1] == x && y[..n + 1] == y;
    }
  }

  /** A constant vector of length n holds its value n times. */
  lemma {:induction false} SizeConstant(n: nat, x: int)
    ensures Size(seq(n, _ => x), x) == n
  {
    if n > 0 {
      SizeConstant(n - 1, x);
      assert seq(n, _ => x) == seq(n - 1, _ => x) + [x];
    }
  }

  /** The ids 0 .. n-1. */
  function IdRange(n: nat): (ids: set<int>)
    ensures forall a :: a in ids <==> 0 <= a < n
  {
    if n == 0 then {} else IdRange(n - 1) + {n - 1}
  }

  lemma {:induction false} CardRange(n: nat)
    ensures |IdRange(n)| == n
  {
    if n > 0 {
      CardRange(n - 1);
      var below := IdRange(n - 1);
      assert n - 1 !in below;
      assert IdRange(n) == below + {n - 1};
      assert |below + {n - 1}| == |below| + 1;
    }
  }

  lemma {:induction false} CardElements(s: seq<int>)
    ensures |set x | x in s| <= |s|
  {
    if |s| > 0 {
      var init := s[..|s| - 1];
      CardElements(init);
      assert (set x | x in s) == (set x | x in init) + {s[|s| - 1]} by {
        assert s == init + [s[|s| - 1]];
      }
    }
  }

  /** Ids are counted by their members: if every id below numAgg has a member,
      there are no more aggregates than vertices. */
  lemma IdsBoundedByVertices(lab: seq<int>, numAgg: nat)
    requires EveryIdUsed(lab, numAgg)
    ensures numAgg <= |lab|
  {
    var ids := IdRange(numAgg);
    var used := set x | x in lab;
    assert ids <= used;
    CardRange(numAgg);
    CardElements(lab);
    assert used == ids + (used - ids);
    assert ids * (used - ids) == {};
  }
}
