/**
 * The seven-node friend dict of the recommendation tests, with the scores
 * and rankings those tests expect.
 */
module ToyGraph {
  import opened FriendGraph
  import opened Ranking
  import Scorers
  import LinkPrediction
  import opened CommonNeighborsRecommender

  function Toy(): (g: Graph)
    ensures g.Valid()
  {
    Graph([0, 1, 2, 3, 4, 5, 6],
          map[0 := {1, 3}, 1 := {0, 2, 3}, 2 := {1, 3}, 3 := {0, 1, 2, 4},
              4 := {3, 5, 6}, 5 := {4, 6}, 6 := {4, 5}])
  }

  /** The test graph, entry by entry, for graphs not written as a literal. */
  ghost predicate LikeToy(g: Graph)
  {
    && g.order == [0, 1, 2, 3, 4, 5, 6]
    && 0 in g.adj && 1 in g.adj && 2 in g.adj && 3 in g.adj
    && 4 in g.adj && 5 in g.adj && 6 in g.adj
    && g.adj[0] == {1, 3} && g.adj[1] == {0, 2, 3} && g.adj[2] == {1, 3}
    && g.adj[3] == {0, 1, 2, 4} && g.adj[4] == {3, 5, 6} && g.adj[5] == {4, 6}
    && g.adj[6] == {4, 5}
  }

  lemma ToyIsLikeToy()
    ensures LikeToy(Toy())
  {
  }

  /** A sample of the expected common-neighbour and Jaccard scores. */
  lemma ToyScores()
    ensures Scorers.CommonNeighbors(Toy(), 0, 2) == 2
    ensures Scorers.CommonNeighbors(Toy(), 0, 4) == 1
    ensures Scorers.CommonNeighbors(Toy(), 0, 5) == 0
    ensures Scorers.Jaccard(Toy(), 0, 2) == 1.0
    ensures Scorers.Jaccard(Toy(), 0, 4) == 0.25
    ensures Scorers.Jaccard(Toy(), 1, 4) == 0.2
  {
    var g := Toy();
    assert g.adj[0] * g.adj[2] == {1, 3};
    assert g.adj[0] * g.adj[4] == {3};
    assert g.adj[0] + g.adj[4] == {1, 3, 5, 6};
    assert g.adj[1] * g.adj[4] == {3};
    assert g.adj[1] + g.adj[4] == {0, 2, 3, 5, 6};
  }

  lemma Prefixes()
    ensures [0, 1, 2, 3, 4, 5, 6][..6] == [0, 1, 2, 3, 4, 5]
    ensures [0, 1, 2, 3, 4, 5][..5] == [0, 1, 2, 3, 4]
    ensures [0, 1, 2, 3, 4][..4] == [0, 1, 2, 3]
    ensures [0, 1, 2, 3][..3] == [0, 1, 2]
    ensures [0, 1, 2][..2] == [0, 1]
    ensures [0, 1][..1] == [0]
    ensures [0][..0] == []
  {
  }

  lemma Kept0(g: Graph)
    requires LikeToy(g)
    ensures Kept(g, 0, g.order) == [(2, 2.0), (4, 1.0)]
  {
    Prefixes();
    assert SharedFriends(g, 0, 2) == {1, 3};
    assert SharedFriends(g, 0, 4) == {3};
    assert SharedFriends(g, 0, 5) == {};
    assert SharedFriends(g, 0, 6) == {};
    assert Kept(g, 0, [0]) == [];
    assert Kept(g, 0, [0, 1]) == [];
    assert Kept(g, 0, [0, 1, 2]) == [(2, 2.0)];
    assert Kept(g, 0, [0, 1, 2, 3]) == [(2, 2.0)];
    assert Kept(g, 0, [0, 1, 2, 3, 4]) == [(2, 2.0), (4, 1.0)];
    assert Kept(g, 0, [0, 1, 2, 3, 4, 5]) == [(2, 2.0), (4, 1.0)];
  }

  lemma Kept1(g: Graph)
    requires LikeToy(g)
    ensures Kept(g, 1, g.order) == [(4, 1.0)]
  {
    Prefixes();
    assert SharedFriends(g, 1, 4) == {3};
    assert SharedFriends(g, 1, 5) == {};
    assert SharedFriends(g, 1, 6) == {};
    assert Kept(g, 1, [0]) == [];
    assert Kept(g, 1, [0, 1]) == [];
    assert Kept(g, 1, [0, 1, 2]) == [];
    assert Kept(g, 1, [0, 1, 2, 3]) == [];
    assert Kept(g, 1, [0, 1, 2, 3, 4]) == [(4, 1.0)];
    assert Kept(g, 1, [0, 1, 2, 3, 4, 5]) == [(4, 1.0)];
  }

  lemma Kept2(g: Graph)
    requires LikeToy(g)
    ensures Kept(g, 2, g.order) == [(0, 2.0), (4, 1.0)]
  {
    Prefixes();
    assert SharedFriends(g, 2, 0) == {1, 3};
    assert SharedFriends(g, 2, 4) == {3};
    assert SharedFriends(g, 2, 5) == {};
    assert SharedFriends(g, 2, 6) == {};
    assert Kept(g, 2, [0]) == [(0, 2.0)];
    assert Kept(g, 2, [0, 1]) == [(0, 2.0)];
    assert Kept(g, 2, [0, 1, 2]) == [(0, 2.0)];
    assert Kept(g, 2, [0, 1, 2, 3]) == [(0, 2.0)];
    assert Kept(g, 2, [0, 1, 2, 3, 4]) == [(0, 2.0), (4, 1.0)];
    assert Kept(g, 2, [0, 1, 2, 3, 4, 5]) == [(0, 2.0), (4, 1.0)];
  }

  lemma Kept3(g: Graph)
    requires LikeToy(g)
    ensures Kept(g, 3, g.order) == [(5, 1.0), (6, 1.0)]
  {
    Prefixes();
    assert SharedFriends(g, 3, 5) == {4};
    assert SharedFriends(g, 3, 6) == {4};
    assert Kept(g, 3, [0]) == [];
    assert Kept(g, 3, [0, 1]) == [];
    assert Kept(g, 3, [0, 1, 2]) == [];
    assert Kept(g, 3, [0, 1, 2, 3]) == [];
    assert Kept(g, 3, [0, 1, 2, 3, 4]) == [];
    assert Kept(g, 3, [0, 1, 2, 3, 4, 5]) == [(5, 1.0)];
  }

  lemma Kept4(g: Graph)
    requires LikeToy(g)
    ensures Kept(g, 4, g.order) == [(0, 1.0), (1, 1.0), (2, 1.0)]
  {
    Prefixes();
    assert SharedFriends(g, 4, 0) == {3};
    assert SharedFriends(g, 4, 1) == {3};
    assert SharedFriends(g, 4, 2) == {3};
    assert Kept(g, 4, [0]) == [(0, 1.0)];
    assert Kept(g, 4, [0, 1]) == [(0, 1.0), (1, 1.0)];
    assert Kept(g, 4, [0, 1, 2]) == [(0, 1.0), (1, 1.0), (2, 1.0)];
    assert Kept(g, 4, [0, 1, 2, 3]) == [(0, 1.0), (1, 1.0), (2, 1.0)];
    assert Kept(g, 4, [0, 1, 2, 3, 4]) == [(0, 1.0), (1, 1.0), (2, 1.0)];
    assert Kept(g, 4, [0, 1, 2, 3, 4, 5]) == [(0, 1.0), (1, 1.0), (2, 1.0)];
  }

  lemma Kept5(g: Graph)
    requires LikeToy(g)
    ensures Kept(g, 5, g.order) == [(3, 1.0)]
  {
    Prefixes();
    assert SharedFriends(g, 5, 0) == {};
    assert SharedFriends(g, 5, 1) == {};
    assert SharedFriends(g, 5, 2) == {};
    assert SharedFriends(g, 5, 3) == {4};
    assert Kept(g, 5, [0]) == [];
    assert Kept(g, 5, [0, 1]) == [];
    assert Kept(g, 5, [0, 1, 2]) == [];
    assert Kept(g, 5, [0, 1, 2, 3]) == [(3, 1.0)];
    assert Kept(g, 5, [0, 1, 2, 3, 4]) == [(3, 1.0)];
    assert Kept(g, 5, [0, 1, 2, 3, 4, 5]) == [(3, 1.0)];
  }

  lemma Kept6(g: Graph)
    requires LikeToy(g)
    ensures Kept(g, 6, g.order) == [(3, 1.0)]
  {
    Prefixes();
    assert SharedFriends(g, 6, 0) == {};
    assert SharedFriends(g, 6, 1) == {};
    assert SharedFriends(g, 6, 2) == {};
    assert SharedFriends(g, 6, 3) == {4};
    assert Kept(g, 6, [0]) == [];
    assert Kept(g, 6, [0, 1]) == [];
    assert Kept(g, 6, [0, 1, 2]) == [];
    assert Kept(g, 6, [0, 1, 2, 3]) == [(3, 1.0)];
    assert Kept(g, 6, [0, 1, 2, 3, 4]) == [(3, 1.0)];
    assert Kept(g, 6, [0, 1, 2, 3, 4, 5]) == [(3, 1.0)];
  }

  /** The lists the test expects from `find_recommendations('common_neighbors')`. */
  function ExpectedCommonNeighbors(node: Node): seq<Node>
  {
    if node == 0 then [2, 4]
    else if node == 1 then [4]
    else if node == 2 then [0, 4]
    else if node == 3 then [5, 6]
    else if node == 4 then [0, 1, 2]
    else if node == 5 then [3]
    else if node == 6 then [3]
    else []
  }

  lemma Ranked0(g: Graph)
    requires LikeToy(g) && g.Valid()
    ensures Ranked(g, 0) == [2, 4]
  {
    Kept0(g);
    SortNodesSorted([(2, 2.0), (4, 1.0)]);
    KeysAt([(2, 2.0), (4, 1.0)]);
  }

  lemma Ranked1(g: Graph)
    requires LikeToy(g) && g.Valid()
    ensures Ranked(g, 1) == [4]
  {
    Kept1(g);
    SortNodesSorted([(4, 1.0)]);
    KeysAt([(4, 1.0)]);
  }

  lemma Ranked2(g: Graph)
    requires LikeToy(g) && g.Valid()
    ensures Ranked(g, 2) == [0, 4]
  {
    Kept2(g);
    SortNodesSorted([(0, 2.0), (4, 1.0)]);
    KeysAt([(0, 2.0), (4, 1.0)]);
  }

  lemma Ranked3(g: Graph)
    requires LikeToy(g) && g.Valid()
    ensures Ranked(g, 3) == [5, 6]
  {
    Kept3(g);
    SortNodesSorted([(5, 1.0), (6, 1.0)]);
    KeysAt([(5, 1.0), (6, 1.0)]);
  }

  lemma Ranked4(g: Graph)
    requires LikeToy(g) && g.Valid()
    ensures Ranked(g, 4) == [0, 1, 2]
  {
    Kept4(g);
    SortNodesSorted([(0, 1.0), (1, 1.0), (2, 1.0)]);
    KeysAt([(0, 1.0), (1, 1.0), (2, 1.0)]);
  }

  lemma Ranked5(g: Graph)
    requires LikeToy(g) && g.Valid()
    ensures Ranked(g, 5) == [3]
  {
    Kept5(g);
    SortNodesSorted([(3, 1.0)]);
    KeysAt([(3, 1.0)]);
  }

  lemma Ranked6(g: Graph)
    requires LikeToy(g) && g.Valid()
    ensures Ranked(g, 6) == [3]
  {
    Kept6(g);
    SortNodesSorted([(3, 1.0)]);
    KeysAt([(3, 1.0)]);
  }

  /**
   * Both recommenders rank every node of the test graph as the test expects
   * for "common_neighbors" (at most three nodes each, so the default cut to
   * ten keeps them whole).
   */
  lemma ToyCommonNeighborsRanked(g: Graph, w: nat -> real, node: Node)
    requires LikeToy(g) && g.Valid() && node in g.adj
    ensures Ranked(g, node) == ExpectedCommonNeighbors(node)
    ensures LinkPrediction.Callable(g, "common_neighbors", node)
    ensures LinkPrediction.Ranked(g, w, "common_neighbors", node) == ExpectedCommonNeighbors(node)
    ensures Truncate(Ranked(g, node), 10) == ExpectedCommonNeighbors(node)
  {
    RankedAgrees(g, w, node);
    assert node in g.order;
    if node == 0 {
      Ranked0(g);
    } else if node == 1 {
      Ranked1(g);
    } else if node == 2 {
      Ranked2(g);
    } else if node == 3 {
      Ranked3(g);
    } else if node == 4 {
      Ranked4(g);
    } else if node == 5 {
      Ranked5(g);
    } else {
      Ranked6(g);
    }
  }

  /** The same for the test graph written as a dict literal. */
  lemma ToyRanked(w: nat -> real, node: Node)
    requires node in Toy().adj
    ensures Ranked(Toy(), node) == ExpectedCommonNeighbors(node)
    ensures LinkPrediction.Callable(Toy(), "common_neighbors", node)
    ensures LinkPrediction.Ranked(Toy(), w, "common_neighbors", node) == ExpectedCommonNeighbors(node)
  {
    ToyIsLikeToy();
    ToyCommonNeighborsRanked(Toy(), w, node);
  }

  /**
   * `CommonNeighbors(friend_dict)` on the test graph: the default of ten
   * suggestions applies, and the table is the one the test expects.
   */
  method ToyTable() returns (cn: CommonNeighbors)
    ensures cn.numberOfSuggestions == 10
    ensures cn.recommendations.Keys == Toy().adj.Keys
    ensures forall node :: node in cn.recommendations ==>
      cn.recommendations[node] == ExpectedCommonNeighbors(node)
  {
    cn := new CommonNeighbors(Toy());
    forall node | node in cn.recommendations
      ensures cn.recommendations[node] == ExpectedCommonNeighbors(node)
    {
      ToyIsLikeToy();
      ToyCommonNeighborsRanked(Toy(), d => 0.0, node);
    }
  }

  /**
   * `Recommendations(friend_dict)` followed by
   * `find_recommendations(score='common_neighbors')` on the test graph: the
   * default of ten suggestions applies, the `algo` attribute is recorded, and
   * the table is the one the test expects.
   */
  method ToyRecommendationsTable() returns (r: LinkPrediction.Recommendations)
    ensures r.numberOfSuggestions == 10 && r.algo == Some("common_neighbors")
    ensures r.recommendations.Keys == Toy().adj.Keys
    ensures forall node :: node in r.recommendations ==>
      r.recommendations[node] == ExpectedCommonNeighbors(node)
  {
    var g := Toy();
    ToyIsLikeToy();
    r := new LinkPrediction.Recommendations(g, d => 0.0);
    forall node | node in g.adj
      ensures LinkPrediction.Callable(g, "common_neighbors", node)
    {
      ToyCommonNeighborsRanked(g, r.invLog, node);
    }
    r.FindRecommendations("common_neighbors");
    forall node | node in r.recommendations
      ensures r.recommendations[node] == ExpectedCommonNeighbors(node)
    {
      ToyCommonNeighborsRanked(g, r.invLog, node);
    }
  }
}
