/**
 * The pairwise scorers of `Recommendations`: common neighbours, Jaccard and
 * Adamic-Adar, each read off the two nodes' friend sets.
 */
module Scorers {
  import opened FriendGraph

  /** A subset is no larger than its superset, and only the superset itself is as large. */
  lemma SubsetSize<T>(a: set<T>, b: set<T>)
    requires a <= b
    ensures |a| <= |b|
    ensures |a| == |b| ==> a == b
  {
    assert b == a + (b - a);
  }

  /** A count over a larger positive count lies in [0, 1], at the ends exactly when the counts are. */
  lemma RatioBounds(n: nat, d: nat)
    requires n <= d && d > 0
    ensures 0.0 <= (n as real) / (d as real) <= 1.0
    ensures (n as real) / (d as real) == 0.0 <==> n == 0
    ensures (n as real) / (d as real) == 1.0 <==> n == d
  {
    var q := (n as real) / (d as real);
    assert q * (d as real) == n as real;
  }

  /** `run_common_neighbors(u, v)`: how many friends `u` and `v` share. */
  function CommonNeighbors(g: Graph, u: Node, v: Node): (r: nat)
    requires u in g.adj && v in g.adj
    ensures r <= |g.adj[u]| && r <= |g.adj[v]|
    ensures r > 0 <==> exists f :: f in g.adj[u] && f in g.adj[v]
  {
    var common := g.adj[u] * g.adj[v];
    SubsetSize(common, g.adj[u]);
    SubsetSize(common, g.adj[v]);
    assert forall f :: f in g.adj[u] && f in g.adj[v] ==> f in common;
    if common != {} then NonEmptyHasMember(common); |common| else |common|
  }


  /**
   * `run_jaccard(u, v)`: shared friends over all friends of either node, as an
   * exact rational. The source divides by zero when neither node has a friend.
   */
  function Jaccard(g: Graph, u: Node, v: Node): (r: real)
    requires u in g.adj && v in g.adj
    requires g.adj[u] + g.adj[v] != {}
    ensures 0.0 <= r <= 1.0
    ensures r == 0.0 <==> g.adj[u] * g.adj[v] == {}
    ensures r == 1.0 <==> g.adj[u] == g.adj[v]
  {
    var a, b := g.adj[u], g.adj[v];
    var common, union := a * b, a + b;
    SubsetSize(common, union);
    assert a == b <==> common == union;
    RatioBounds(|common|, |union|);
    (|common| as real) / (|union| as real)
  }

  /**
   * The sum of `w(|N(x)|)` over the nodes `x` of `s`, where `w` stands for
   * `1 / np.log`. Its value does not depend on the order the set is visited.
   */
  ghost function WeightSum(g: Graph, w: nat -> real, s: set<Node>): real
    requires s <= g.adj.Keys
  {
    if s == {} then 0.0
    else
      NonEmptyHasMember(s);
      var x :| x in s;
      w(|g.adj[x]|) + WeightSum(g, w, s - {x})
  }

  /** Any member can be taken out of the sum first. */
  lemma {:induction false} WeightSumPick(g: Graph, w: nat -> real, s: set<Node>, x: Node)
    requires s <= g.adj.Keys && x in s
    ensures WeightSum(g, w, s) == w(|g.adj[x]|) + WeightSum(g, w, s - {x})
  {
    var y :| y in s && WeightSum(g, w, s) == w(|g.adj[y]|) + WeightSum(g, w, s - {y});
    if y != x {
      WeightSumPick(g, w, s - {y}, x);
      WeightSumPick(g, w, s - {x}, y);
      assert s - {y} - {x} == s - {x} - {y};
    }
  }

  /**
   * `run_adamin_adar(u, v)`: the weight of each shared friend, summed. Only
   * shared friends contribute, so nodes without one score 0.
   */
  ghost function AdamicAdar(g: Graph, w: nat -> real, u: Node, v: Node): (r: real)
    requires u in g.adj && v in g.adj && g.adj[u] * g.adj[v] <= g.adj.Keys
    ensures g.adj[u] * g.adj[v] == {} ==> r == 0.0
  {
    WeightSum(g, w, g.adj[u] * g.adj[v])
  }

  /** Every scorer gives the same value whichever of the two nodes comes first. */
  lemma ScorersSymmetric(g: Graph, w: nat -> real, u: Node, v: Node)
    requires u in g.adj && v in g.adj
    ensures CommonNeighbors(g, u, v) == CommonNeighbors(g, v, u)
    ensures g.adj[u] + g.adj[v] != {} ==> Jaccard(g, u, v) == Jaccard(g, v, u)
    ensures g.adj[u] * g.adj[v] <= g.adj.Keys ==> AdamicAdar(g, w, u, v) == AdamicAdar(g, w, v, u)
  {
    assert g.adj[u] * g.adj[v] == g.adj[v] * g.adj[u];
    assert g.adj[u] + g.adj[v] == g.adj[v] + g.adj[u];
  }
}
