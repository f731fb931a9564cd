/**
 * The shortest path from row boundary 0 to row boundary `n` in the layout
 * graph, whose only edges go forward by 1 to `limit` positions. The graph
 * is acyclic, so one forward pass over the boundaries finds a minimal path:
 * `Best(j)` is the least cost of reaching boundary `j`.
 */
module RowPath {
  import opened Wrappers

  /** The weight of the edge from boundary `s` to boundary `e`. */
  type CostFn = (nat, nat) -> real

  /** An edge of the graph: forward, by at most `limit` positions. */
  predicate Step(s: nat, e: nat, limit: int)
  {
    s < e <= s + limit
  }

  /** A path from 0 to `n` along edges: the row breakpoints `0 = p0 < ... < pm = n`. */
  predicate ValidPath(p: seq<nat>, n: nat, limit: int)
  {
    && |p| >= 1
    && p[0] == 0
    && p[|p| - 1] == n
    && forall i :: 0 <= i < |p| - 1 ==> Step(p[i], p[i + 1], limit)
  }

  /** The sum of the path's edge weights. */
  function PathCost(c: CostFn, p: seq<nat>): real
  {
    if |p| <= 1 then 0.0 else PathCost(c, p[..|p| - 1]) + c(p[|p| - 2], p[|p| - 1])
  }

  function MinReal(x: real, y: real): real { if x <= y then x else y }

  /** The first boundary with an edge into `j`. */
  function Lo(j: nat, limit: nat): (lo: nat)
    ensures lo <= j
  {
    if j > limit then j - limit else 0
  }

  /** The least cost of a path from 0 to `j`. */
  function Best(c: CostFn, limit: nat, j: nat): real
    requires limit >= 1
    decreases j, 1
  {
    if j == 0 then 0.0 else BestFrom(c, limit, j, Lo(j, limit))
  }

  /** The least cost of reaching `j` through a last edge from one of `i .. j-1`. */
  function BestFrom(c: CostFn, limit: nat, j: nat, i: nat): real
    requires limit >= 1 && Lo(j, limit) <= i < j
    decreases j, 0, j - i
  {
    var v := Best(c, limit, i) + c(i, j);
    if i == j - 1 then v else MinReal(v, BestFrom(c, limit, j, i + 1))
  }

  /** A predecessor among `i .. j-1` through which `BestFrom` is attained. */
  function ArgBest(c: CostFn, limit: nat, j: nat, i: nat): (k: nat)
    requires limit >= 1 && Lo(j, limit) <= i < j
    ensures i <= k < j
    ensures Best(c, limit, k) + c(k, j) == BestFrom(c, limit, j, i)
    decreases j - i
  {
    if i == j - 1 then i
    else
      var k := ArgBest(c, limit, j, i + 1);
      if Best(c, limit, i) + c(i, j) <= Best(c, limit, k) + c(k, j) then i else k
  }

  /** The path the forward pass reconstructs, by following the chosen predecessors back from `j`. */
  function OptPath(c: CostFn, limit: nat, j: nat): seq<nat>
    requires limit >= 1
    decreases j
  {
    if j == 0 then [0] else OptPath(c, limit, ArgBest(c, limit, j, Lo(j, limit))) + [j]
  }

  /** Extending a path by one edge adds that edge's weight. */
  lemma {:induction false} PathCostSnoc(c: CostFn, p: seq<nat>, e: nat)
    requires |p| >= 1
    ensures PathCost(c, p + [e]) == PathCost(c, p) + c(p[|p| - 1], e)
  {
    var q := p + [e];
    assert q[..|q| - 1] == p;
    assert q[|q| - 2] == p[|p| - 1] && q[|q| - 1] == e;
  }

  /** The reconstructed path is a path of the graph and costs exactly `Best(j)`. */
  lemma {:induction false} OptPathIsValid(c: CostFn, limit: nat, j: nat)
    requires limit >= 1
    ensures ValidPath(OptPath(c, limit, j), j, limit)
    ensures PathCost(c, OptPath(c, limit, j)) == Best(c, limit, j)
    decreases j
  {
    if j > 0 {
      var k := ArgBest(c, limit, j, Lo(j, limit));
      OptPathIsValid(c, limit, k);
      var q := OptPath(c, limit, k);
      PathCostSnoc(c, q, j);
      assert OptPath(c, limit, j) == q + [j];
    }
  }

  /** `BestFrom(j, i)` is no more than the cost through any predecessor from `i` on. */
  lemma {:induction false} BestFromIsMinimal(c: CostFn, limit: nat, j: nat, i: nat, k: nat)
    requires limit >= 1 && Lo(j, limit) <= i <= k < j
    ensures BestFrom(c, limit, j, i) <= Best(c, limit, k) + c(k, j)
    decreases k - i
  {
    if i < k {
      BestFromIsMinimal(c, limit, j, i + 1, k);
    }
  }

  /** No path to `j` costs less than `Best(j)`. */
  lemma {:induction false} BestIsLowerBound(c: CostFn, limit: nat, p: seq<nat>, j: nat)
    requires limit >= 1 && ValidPath(p, j, limit)
    ensures Best(c, limit, j) <= PathCost(c, p)
    decreases |p|
  {
    if |p| > 1 {
      var q := p[..|p| - 1];
      var k := q[|q| - 1];
      assert ValidPath(q, k, limit);
      BestIsLowerBound(c, limit, q, k);
      assert Step(k, j, limit);
      BestFromIsMinimal(c, limit, j, Lo(j, limit), k);
    }
  }

  /** A path to a boundary beyond 0 needs an edge, so `limit >= 1`: without edges only the empty layout has a path. */
  lemma {:induction false} PathNeedsEdges(p: seq<nat>, n: nat, limit: int)
    requires ValidPath(p, n, limit) && n > 0
    ensures limit >= 1
  {
    assert |p| > 1;
    assert Step(p[0], p[1], limit);
  }

  /**
   * A minimal-cost path from 0 to `n`, or `None` when there is none. Any
   * shortest-path solver over this graph returns a path of the same cost.
   */
  function ShortestPath(c: CostFn, n: nat, limit: int): (r: Option<seq<nat>>)
    ensures r.Some? ==> ValidPath(r.value, n, limit)
    ensures r.Some? ==> forall q :: ValidPath(q, n, limit) ==> PathCost(c, r.value) <= PathCost(c, q)
    ensures r.None? ==> forall q :: !ValidPath(q, n, limit)
  {
    if n == 0 then
      assert forall q :: ValidPath(q, 0, limit) ==> PathCost(c, [0]) <= PathCost(c, q);
      Some([0])
    else if limit < 1 then
      assert forall q :: !ValidPath(q, n, limit) by {
        forall q | ValidPath(q, n, limit) ensures false { PathNeedsEdges(q, n, limit); }
      }
      None
    else
      var p := OptPath(c, limit, n);
      assert ValidPath(p, n, limit) && forall q :: ValidPath(q, n, limit) ==> PathCost(c, p) <= PathCost(c, q) by {
        OptPathIsValid(c, limit, n);
        forall q | ValidPath(q, n, limit) ensures PathCost(c, p) <= PathCost(c, q) {
          BestIsLowerBound(c, limit, q, n);
        }
      }
      Some(p)
  }

  /** The search fails exactly when there are images to place but no edges. */
  lemma {:induction false} ShortestPathExists(c: CostFn, n: nat, limit: int)
    ensures ShortestPath(c, n, limit).None? <==> n > 0 && limit < 1
  {
    if n > 0 && limit >= 1 {
      OptPathIsValid(c, limit, n);
    }
  }
}
