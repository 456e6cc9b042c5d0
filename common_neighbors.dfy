/**
 * `CommonNeighbors`: the older, loop-based recommender that ranks the
 * non-friends of every node by how many friends they share with it, and
 * fills its table as soon as it is built.
 */
module CommonNeighborsRecommender {
  import opened FriendGraph
  import opened Ranking
  import Scorers
  import LinkPrediction

  /** The friends `candidate` shares with `node`, as the counter loop visits them. */
  function SharedFriends(g: Graph, node: Node, candidate: Node): set<Node>
    requires node in g.adj && candidate in g.adj
  {
    g.adj[candidate] * g.adj[node]
  }

  /**
   * The items of `rec` after the candidates `cs` have been visited: each
   * eligible candidate with a non-zero count of shared friends, with that count.
   */
  function Kept(g: Graph, node: Node, cs: seq<Node>): seq<(Node, real)>
    requires node in g.adj && forall c :: c in cs ==> c in g.adj
  {
    if cs == [] then []
    else
      var c := cs[|cs| - 1];
      var count := |SharedFriends(g, node, c)|;
      Kept(g, node, cs[..|cs| - 1])
        + (if c != node && c !in g.adj[node] && count != 0 then [(c, count as real)] else [])
  }

  /** `run_algorithm(node)`: the kept candidates, by descending count. */
  function Ranked(g: Graph, node: Node): seq<Node>
    requires g.Valid() && node in g.adj
  {
    SortNodes(Kept(g, node, g.order))
  }

  lemma KeptSnoc(g: Graph, node: Node, cs: seq<Node>, c: Node)
    requires node in g.adj && (forall x :: x in cs ==> x in g.adj) && c in g.adj
    ensures Kept(g, node, cs + [c])
         == Kept(g, node, cs)
            + (if c != node && c !in g.adj[node] && |SharedFriends(g, node, c)| != 0
               then [(c, |SharedFriends(g, node, c)| as real)] else [])
  {
    assert (cs + [c])[..|cs|] == cs;
  }

  /**
   * The loop-based recommender agrees with `Recommendations` run with
   * "common_neighbors": they keep the same candidates with the same scores,
   * in the same order, whatever the Adamic-Adar weight `w` is.
   */
  lemma {:induction false} KeptAgrees(g: Graph, w: nat -> real, node: Node, cs: seq<Node>)
    requires g.Valid() && node in g.adj && forall c :: c in cs ==> c in g.adj
    ensures LinkPrediction.Callable(g, "common_neighbors", node)
    ensures Kept(g, node, cs)
         == LinkPrediction.Scored(g, w, "common_neighbors", node,
              LinkPrediction.Candidates(g, w, "common_neighbors", node, cs))
  {
    assert LinkPrediction.Callable(g, "common_neighbors", node);
    if cs != [] {
      var cs', c := cs[..|cs| - 1], cs[|cs| - 1];
      assert cs == cs' + [c];
      KeptAgrees(g, w, node, cs');
      KeptSnoc(g, node, cs', c);
      LinkPrediction.KeptStep(g, w, "common_neighbors", node, cs', c);
      if c != node && c !in g.adj[node] {
        assert SharedFriends(g, node, c) == g.adj[node] * g.adj[c];
        assert LinkPrediction.Score(g, w, "common_neighbors", node, c)
            == |SharedFriends(g, node, c)| as real;
      }
    }
  }

  /** Hence the two rankings are equal. */
  lemma RankedAgrees(g: Graph, w: nat -> real, node: Node)
    requires g.Valid() && node in g.adj
    ensures LinkPrediction.Callable(g, "common_neighbors", node)
    ensures Ranked(g, node) == LinkPrediction.Ranked(g, w, "common_neighbors", node)
  {
    KeptAgrees(g, w, node, g.order);
  }

  /** `run_algorithm(node)` recommends no node twice. */
  lemma RankedDistinct(g: Graph, node: Node)
    requires g.Valid() && node in g.adj
    ensures Distinct(Ranked(g, node))
  {
    var w: nat -> real := d => 0.0;
    RankedAgrees(g, w, node);
    LinkPrediction.RankedMembers(g, w, "common_neighbors", node);
    LinkPrediction.CandidatesDistinct(g, w, "common_neighbors", node, g.order);
    DistinctByMultiset(Ranked(g, node), LinkPrediction.Candidates(g, w, "common_neighbors", node, g.order));
  }

  /**
   * `run_algorithm(node)` recommends exactly the nodes other than `node` and
   * its friends that share at least one friend with it: friends of friends.
   */
  lemma RankedFriendsOfFriends(g: Graph, node: Node)
    requires g.Valid() && node in g.adj
    ensures forall c :: c in Ranked(g, node) <==>
      c in g.adj && c != node && c !in g.adj[node] && exists f :: f in g.adj[node] && f in g.adj[c]
  {
    var w: nat -> real := d => 0.0;
    RankedAgrees(g, w, node);
    LinkPrediction.RankedMembers(g, w, "common_neighbors", node);
  }

  /** A node sharing fewer friends with `node` never precedes one sharing more. */
  lemma RankedByCount(g: Graph, node: Node)
    requires g.Valid() && node in g.adj
    ensures forall c :: c in Ranked(g, node) ==> c in g.adj
    ensures forall i, j :: 0 <= i < j < |Ranked(g, node)| ==>
      |SharedFriends(g, node, Ranked(g, node)[i])| >= |SharedFriends(g, node, Ranked(g, node)[j])|
  {
    var w: nat -> real := d => 0.0;
    RankedAgrees(g, w, node);
    LinkPrediction.RankedByScore(g, w, "common_neighbors", node);
    var r := Ranked(g, node);
    forall i, j | 0 <= i < j < |r|
      ensures |SharedFriends(g, node, r[i])| >= |SharedFriends(g, node, r[j])|
    {
      assert SharedFriends(g, node, r[i]) == g.adj[node] * g.adj[r[i]];
      assert SharedFriends(g, node, r[j]) == g.adj[node] * g.adj[r[j]];
    }
  }

  /** A sequence with the same multiset as a sequence without repeats has none either. */
  lemma DistinctByMultiset(a: seq<Node>, b: seq<Node>)
    requires multiset(a) == multiset(b) && Distinct(b)
    ensures Distinct(a)
  {
    forall i, j | 0 <= i < j < |a| ensures a[i] != a[j] {
      if a[i] == a[j] {
        assert a == a[..i] + [a[i]] + a[i + 1..j] + [a[j]] + a[j + 1..];
        assert multiset(a)[a[i]] >= 2;
        MultisetOfDistinct(b, a[i]);
        assert false;
      }
    }
  }

  lemma {:induction false} MultisetOfDistinct(b: seq<Node>, x: Node)
    requires Distinct(b)
    ensures multiset(b)[x] <= 1
  {
    if b != [] {
      var b' := b[..|b| - 1];
      assert b == b' + [b[|b| - 1]];
      assert Distinct(b');
      MultisetOfDistinct(b', x);
      assert b[|b| - 1] !in b';
    }
  }

  class CommonNeighbors {
    var graph: Graph
    var numberOfSuggestions: int
    var recommendations: map<Node, seq<Node>>

    /** `__init__(graph, number_of_suggestions=10)`: stores its arguments and fills the table straight away. */
    constructor (graph: Graph, numberOfSuggestions: int := 10)
      requires graph.Valid()
      ensures this.graph == graph && this.numberOfSuggestions == numberOfSuggestions
      ensures recommendations.Keys == graph.adj.Keys
      ensures forall node :: node in recommendations ==>
        recommendations[node] == Truncate(Ranked(graph, node), numberOfSuggestions)
    {
      this.graph := graph;
      this.numberOfSuggestions := numberOfSuggestions;
      new;
      recommendations := FindRecommendedFriends();
    }

    /**
     * `run_algorithm(node)`: counts, for every eligible node in graph order,
     * the friends it shares with `node`, keeps the non-zero counts in `rec`,
     * and ranks them. The graph is only read.
     */
    method RunAlgorithm(node: Node) returns (ranked: seq<Node>)
      requires graph.Valid() && node in graph.adj
      ensures ranked == Ranked(graph, node)
    {
      var rec: seq<(Node, real)> := [];
      var i := 0;
      while i < |graph.order|
        invariant 0 <= i <= |graph.order|
        invariant rec == Kept(graph, node, graph.order[..i])
      {
        var candidate := graph.order[i];
        assert graph.order[..i + 1] == graph.order[..i] + [candidate];
        KeptSnoc(graph, node, graph.order[..i], candidate);
        if candidate != node && candidate !in graph.adj[node] {
          var commonFriends := CountCommonFriends(node, candidate);
          if commonFriends != 0 {
            rec := rec + [(candidate, commonFriends as real)];
          }
        }
        i := i + 1;
      }
      assert graph.order[..i] == graph.order;
      ranked := SortNodes(rec);
    }

    /**
     * The inner loop of `run_algorithm(node)`: walks the friends of
     * `candidate` in any order and counts those that are friends of `node`.
     */
    method CountCommonFriends(node: Node, candidate: Node) returns (commonFriends: nat)
      requires node in graph.adj && candidate in graph.adj
      ensures commonFriends == |SharedFriends(graph, node, candidate)|
    {
      commonFriends := 0;
      var rest := graph.adj[candidate];
      ghost var seen: set<Node> := {};
      while rest != {}
        invariant rest + seen == graph.adj[candidate]
        invariant forall f :: f in rest ==> f !in seen
        invariant commonFriends == |seen * graph.adj[node]|
        decreases rest
      {
        NonEmptyHasMember(rest);
        var friend :| friend in rest;
        if friend in graph.adj[node] {
          assert (seen + {friend}) * graph.adj[node] == seen * graph.adj[node] + {friend};
          commonFriends := commonFriends + 1;
        } else {
          assert (seen + {friend}) * graph.adj[node] == seen * graph.adj[node];
        }
        rest := rest - {friend};
        seen := seen + {friend};
      }
      assert seen == graph.adj[candidate];
    }

    /**
     * `find_recommended_friends()`: the table mapping every node of the graph
     * to the first `number_of_suggestions` nodes of its ranking.
     */
    method FindRecommendedFriends() returns (rec: map<Node, seq<Node>>)
      requires graph.Valid()
      ensures rec.Keys == graph.adj.Keys
      ensures forall node :: node in rec ==>
        rec[node] == Truncate(Ranked(graph, node), numberOfSuggestions)
    {
      rec := map[];
      var i := 0;
      while i < |graph.order|
        invariant 0 <= i <= |graph.order|
        invariant forall node :: node in rec <==> node in graph.order[..i]
        invariant forall node :: node in rec ==>
          node in graph.adj && rec[node] == Truncate(Ranked(graph, node), numberOfSuggestions)
      {
        var node := graph.order[i];
        assert graph.order[..i + 1] == graph.order[..i] + [node];
        var ranked := RunAlgorithm(node);
        rec := rec[node := Truncate(ranked, numberOfSuggestions)];
        i := i + 1;
      }
      assert graph.order[..i] == graph.order;
      forall node ensures node in rec.Keys <==> node in graph.adj.Keys {
        assert node in rec <==> node in graph.order;
      }
    }
  }
}
