/**
 * `Recommendations`: for every node, the non-friends ranked by a named
 * link-prediction score, highest first, truncated to `number_of_suggestions`.
 */
module LinkPrediction {
  import opened FriendGraph
  import opened Ranking
  import Scorers

  /**
   * What `run_algorithm(node, algo)` needs in order not to raise: `node` is a
   * key (demanded even of an empty graph, where the source would return `[]`
   * for any node); with "jaccard", no eligible candidate shares an empty union of
   * friends with `node` (ZeroDivisionError); with "adamic_adar", every shared
   * friend is itself a key (KeyError).
   */
  ghost predicate Callable(g: Graph, algo: string, node: Node)
  {
    && g.Valid()
    && node in g.adj
    && (algo == "jaccard" ==>
          forall c :: c in g.adj && Eligible(g, node, c) ==> g.adj[node] + g.adj[c] != {})
    && (algo == "adamic_adar" ==>
          forall c :: c in g.adj && Eligible(g, node, c) ==> g.adj[node] * g.adj[c] <= g.adj.Keys)
  }

  /** The score `run_algorithm` gives an eligible candidate: 0 for a name it does not know. */
  ghost function Score(g: Graph, w: nat -> real, algo: string, node: Node, c: Node): real
    requires Callable(g, algo, node) && c in g.adj && Eligible(g, node, c)
  {
    if algo == "common_neighbors" then Scorers.CommonNeighbors(g, node, c) as real
    else if algo == "jaccard" then Scorers.Jaccard(g, node, c)
    else if algo == "adamic_adar" then Scorers.AdamicAdar(g, w, node, c)
    else 0.0
  }

  /** The candidates among `cs` that `run_algorithm` keeps in `node_rec`, in the order of `cs`. */
  ghost function Candidates(g: Graph, w: nat -> real, algo: string, node: Node, cs: seq<Node>): (r: seq<Node>)
    requires Callable(g, algo, node) && forall c :: c in cs ==> c in g.adj
    ensures forall c :: c in r ==> c in cs && Eligible(g, node, c)
  {
    if cs == [] then []
    else
      var c := cs[|cs| - 1];
      Candidates(g, w, algo, node, cs[..|cs| - 1])
        + (if Eligible(g, node, c) && Score(g, w, algo, node, c) != 0.0 then [c] else [])
  }

  /** `node_rec` keeps a candidate exactly when it is eligible and its score is not 0. */
  lemma {:induction false} CandidatesMembers(g: Graph, w: nat -> real, algo: string, node: Node, cs: seq<Node>)
    requires Callable(g, algo, node) && forall c :: c in cs ==> c in g.adj
    ensures forall c :: c in Candidates(g, w, algo, node, cs) <==>
      c in cs && Eligible(g, node, c) && Score(g, w, algo, node, c) != 0.0
  {
    if cs != [] {
      var cs' := cs[..|cs| - 1];
      CandidatesMembers(g, w, algo, node, cs');
      assert cs == cs' + [cs[|cs| - 1]];
    }
  }

  /** Every node of `cs` can be scored against `node`. */
  ghost predicate Scorable(g: Graph, algo: string, node: Node, cs: seq<Node>)
  {
    Callable(g, algo, node) && forall c :: c in cs ==> c in g.adj && Eligible(g, node, c)
  }

  /** The items of `node_rec`: each candidate with its score. */
  ghost function Scored(g: Graph, w: nat -> real, algo: string, node: Node, cs: seq<Node>): seq<(Node, real)>
    requires Scorable(g, algo, node, cs)
  {
    if cs == [] then []
    else
      var c := cs[|cs| - 1];
      Scored(g, w, algo, node, cs[..|cs| - 1]) + [(c, Score(g, w, algo, node, c))]
  }

  /** The nodes of `cs` whose score is exactly `v`, in the order of `cs`. */
  ghost function Tied(g: Graph, w: nat -> real, algo: string, node: Node, cs: seq<Node>, v: real): seq<Node>
    requires Scorable(g, algo, node, cs)
  {
    if cs == [] then []
    else
      var c := cs[|cs| - 1];
      Tied(g, w, algo, node, cs[..|cs| - 1], v) + (if Score(g, w, algo, node, c) == v then [c] else [])
  }

  /** `run_algorithm(node, algo)`: the kept candidates, by descending score. */
  ghost function Ranked(g: Graph, w: nat -> real, algo: string, node: Node): seq<Node>
    requires Callable(g, algo, node)
  {
    SortNodes(Scored(g, w, algo, node, Candidates(g, w, algo, node, g.order)))
  }

  lemma CandidatesSnoc(g: Graph, w: nat -> real, algo: string, node: Node, cs: seq<Node>, c: Node)
    requires Callable(g, algo, node) && (forall x :: x in cs ==> x in g.adj) && c in g.adj
    ensures Candidates(g, w, algo, node, cs + [c])
         == Candidates(g, w, algo, node, cs)
            + (if Eligible(g, node, c) && Score(g, w, algo, node, c) != 0.0 then [c] else [])
  {
    assert (cs + [c])[..|cs|] == cs;
  }

  lemma ScoredSnoc(g: Graph, w: nat -> real, algo: string, node: Node, cs: seq<Node>, c: Node)
    requires Scorable(g, algo, node, cs) && c in g.adj && Eligible(g, node, c)
    ensures Scorable(g, algo, node, cs + [c])
    ensures Scored(g, w, algo, node, cs + [c]) == Scored(g, w, algo, node, cs) + [(c, Score(g, w, algo, node, c))]
  {
    assert (cs + [c])[..|cs|] == cs;
  }

  /** One more iteration of the loop of `run_algorithm`, over candidate `c`. */
  lemma KeptStep(g: Graph, w: nat -> real, algo: string, node: Node, cs: seq<Node>, c: Node)
    requires Callable(g, algo, node) && (forall x :: x in cs ==> x in g.adj) && c in g.adj
    ensures Eligible(g, node, c) && Score(g, w, algo, node, c) != 0.0 ==>
      Scored(g, w, algo, node, Candidates(g, w, algo, node, cs + [c]))
        == Scored(g, w, algo, node, Candidates(g, w, algo, node, cs)) + [(c, Score(g, w, algo, node, c))]
    ensures !(Eligible(g, node, c) && Score(g, w, algo, node, c) != 0.0) ==>
      Scored(g, w, algo, node, Candidates(g, w, algo, node, cs + [c]))
        == Scored(g, w, algo, node, Candidates(g, w, algo, node, cs))
  {
    CandidatesSnoc(g, w, algo, node, cs, c);
    var kept := Candidates(g, w, algo, node, cs);
    if Eligible(g, node, c) && Score(g, w, algo, node, c) != 0.0 {
      assert Candidates(g, w, algo, node, cs + [c]) == kept + [c];
      ScoredSnoc(g, w, algo, node, kept, c);
    } else {
      assert Candidates(g, w, algo, node, cs + [c]) == kept;
    }
  }

  /** Every item carries its candidate's score. */
  ghost predicate Consistent(g: Graph, w: nat -> real, algo: string, node: Node, items: seq<(Node, real)>)
    requires Callable(g, algo, node)
  {
    forall p :: p in items ==>
      p.0 in g.adj && Eligible(g, node, p.0) && p.1 == Score(g, w, algo, node, p.0)
  }

  lemma {:induction false} ScoredItems(g: Graph, w: nat -> real, algo: string, node: Node, cs: seq<Node>)
    requires Scorable(g, algo, node, cs)
    ensures Keys(Scored(g, w, algo, node, cs)) == cs
    ensures Consistent(g, w, algo, node, Scored(g, w, algo, node, cs))
  {
    if cs != [] {
      var cs', c := cs[..|cs| - 1], cs[|cs| - 1];
      assert cs' + [c] == cs;
      assert Scorable(g, algo, node, cs');
      ScoredItems(g, w, algo, node, cs');
      var s' := Scored(g, w, algo, node, cs');
      var p := (c, Score(g, w, algo, node, c));
      assert Scored(g, w, algo, node, cs) == s' + [p];
      KeysSnoc(s', p);
      forall q | q in s' + [p]
        ensures q.0 in g.adj && Eligible(g, node, q.0) && q.1 == Score(g, w, algo, node, q.0)
      {
        if q != p {
          assert q in s';
        }
      }
    }
  }

  /** Projecting the items with score `v` gives the nodes tied at `v`. */
  lemma {:induction false} TiedKeys(g: Graph, w: nat -> real, algo: string, node: Node, items: seq<(Node, real)>, v: real)
    requires Callable(g, algo, node) && Consistent(g, w, algo, node, items)
    ensures Scorable(g, algo, node, Keys(items))
    ensures Keys(WithScore(items, v)) == Tied(g, w, algo, node, Keys(items), v)
  {
    KeysAt(items);
    if items != [] {
      var items' := items[..|items| - 1];
      var last := items[|items| - 1];
      assert Consistent(g, w, algo, node, items');
      TiedKeys(g, w, algo, node, items', v);
      var ks := Keys(items);
      assert ks[..|ks| - 1] == Keys(items') && ks[|ks| - 1] == last.0;
      var ws := WithScore(items', v);
      assert last in items;
      assert Score(g, w, algo, node, last.0) == last.1;
      assert Tied(g, w, algo, node, ks, v)
          == Tied(g, w, algo, node, Keys(items'), v) + (if last.1 == v then [last.0] else []);
      if last.1 == v {
        assert (ws + [last])[..|ws|] == ws;
        assert Keys(ws + [last]) == Keys(ws) + [last.0];
      } else {
        assert WithScore(items, v) == ws;
      }
    }
  }

  /** The items of `node_rec` once the loop of `run_algorithm` is done. */
  ghost function Kept(g: Graph, w: nat -> real, algo: string, node: Node): seq<(Node, real)>
    requires Callable(g, algo, node)
  {
    Scored(g, w, algo, node, Candidates(g, w, algo, node, g.order))
  }

  lemma SortedKept(g: Graph, w: nat -> real, algo: string, node: Node)
    requires Callable(g, algo, node)
    ensures Consistent(g, w, algo, node, SortByScore(Kept(g, w, algo, node)))
    ensures Ranked(g, w, algo, node) == Keys(SortByScore(Kept(g, w, algo, node)))
    ensures multiset(Ranked(g, w, algo, node)) == multiset(Candidates(g, w, algo, node, g.order))
  {
    var cands := Candidates(g, w, algo, node, g.order);
    var items := Kept(g, w, algo, node);
    ScoredItems(g, w, algo, node, cands);
    SortByScoreSpec(items);
    var sorted := SortByScore(items);
    forall p | p in sorted
      ensures p.0 in g.adj && Eligible(g, node, p.0) && p.1 == Score(g, w, algo, node, p.0)
    {
      assert p in multiset(sorted);
      assert p in items;
    }
  }

  /**
   * `run_algorithm(node, algo)` returns exactly the nodes other than `node`
   * and its friends whose score is not 0, each as often as among the kept
   * candidates (once, see CandidatesDistinct).
   */
  lemma RankedMembers(g: Graph, w: nat -> real, algo: string, node: Node)
    requires Callable(g, algo, node)
    ensures multiset(Ranked(g, w, algo, node)) == multiset(Candidates(g, w, algo, node, g.order))
    ensures forall c :: c in Ranked(g, w, algo, node) <==>
      c in g.order && Eligible(g, node, c) && Score(g, w, algo, node, c) != 0.0
  {
    SortedKept(g, w, algo, node);
    var r, cands := Ranked(g, w, algo, node), Candidates(g, w, algo, node, g.order);
    CandidatesMembers(g, w, algo, node, g.order);
    forall c ensures c in r <==> c in cands {
      assert c in r <==> c in multiset(r);
      assert c in cands <==> c in multiset(cands);
    }
  }

  /** The ranking never lets a lower score precede a higher one. */
  lemma RankedByScore(g: Graph, w: nat -> real, algo: string, node: Node)
    requires Callable(g, algo, node)
    ensures forall c :: c in Ranked(g, w, algo, node) ==> c in g.adj && Eligible(g, node, c)
    ensures forall i, j :: 0 <= i < j < |Ranked(g, w, algo, node)| ==>
      Score(g, w, algo, node, Ranked(g, w, algo, node)[i]) >= Score(g, w, algo, node, Ranked(g, w, algo, node)[j])
  {
    RankedMembers(g, w, algo, node);
    SortedKept(g, w, algo, node);
    var sorted := SortByScore(Kept(g, w, algo, node));
    SortByScoreSpec(Kept(g, w, algo, node));
    KeysAt(sorted);
    var r := Ranked(g, w, algo, node);
    forall i, j | 0 <= i < j < |r|
      ensures Score(g, w, algo, node, r[i]) >= Score(g, w, algo, node, r[j])
    {
      assert sorted[i] in sorted && sorted[j] in sorted;
    }
  }

  /**
   * Stable tie order: for every score, the recommended nodes with that score
   * come in the same order as in the kept candidates, i.e. the graph's order.
   */
  lemma RankedStable(g: Graph, w: nat -> real, algo: string, node: Node, v: real)
    requires Callable(g, algo, node)
    ensures Scorable(g, algo, node, Ranked(g, w, algo, node))
    ensures Tied(g, w, algo, node, Ranked(g, w, algo, node), v)
         == Tied(g, w, algo, node, Candidates(g, w, algo, node, g.order), v)
  {
    var cands := Candidates(g, w, algo, node, g.order);
    SortedKept(g, w, algo, node);
    ScoredItems(g, w, algo, node, cands);
    SortByScoreSpec(Kept(g, w, algo, node));
    TiedKeys(g, w, algo, node, SortByScore(Kept(g, w, algo, node)), v);
    TiedKeys(g, w, algo, node, Kept(g, w, algo, node), v);
  }

  /** The kept candidates come from the graph's keys, so none is kept twice. */
  lemma {:induction false} CandidatesDistinct(g: Graph, w: nat -> real, algo: string, node: Node, cs: seq<Node>)
    requires Callable(g, algo, node) && (forall c :: c in cs ==> c in g.adj) && Distinct(cs)
    ensures Distinct(Candidates(g, w, algo, node, cs))
  {
    if cs != [] {
      var cs', c := cs[..|cs| - 1], cs[|cs| - 1];
      assert Distinct(cs');
      CandidatesDistinct(g, w, algo, node, cs');
      assert c !in cs';
    }
  }

  /** Under a score name `run_algorithm` does not know, no candidate is kept. */
  lemma {:induction false} UnknownScoreKeepsNothing(g: Graph, w: nat -> real, algo: string, node: Node, cs: seq<Node>)
    requires Callable(g, algo, node) && forall c :: c in cs ==> c in g.adj
    requires algo != "common_neighbors" && algo != "jaccard" && algo != "adamic_adar"
    ensures Candidates(g, w, algo, node, cs) == []
  {
    if cs != [] {
      UnknownScoreKeepsNothing(g, w, algo, node, cs[..|cs| - 1]);
    }
  }

  /**
   * A score name `run_algorithm` does not know scores every candidate 0, so
   * it recommends nothing, and raises no error.
   */
  lemma UnknownScoreRecommendsNothing(g: Graph, w: nat -> real, algo: string, node: Node)
    requires Callable(g, algo, node)
    requires algo != "common_neighbors" && algo != "jaccard" && algo != "adamic_adar"
    ensures Ranked(g, w, algo, node) == []
  {
    UnknownScoreKeepsNothing(g, w, algo, node, g.order);
  }

  /** Python truthiness of a string: only the empty string is false. */
  predicate Truthy(s: string)
  {
    s != ""
  }

  /**
   * The asserted condition of `find_recommendations`:
   * `score == 'common_neighbors' or 'jaccard' or 'adamic_adar'`. The second
   * operand is a non-empty string, so the condition holds whatever `score` is.
   */
  function ScoreNameAccepted(score: string): (accepted: bool)
    ensures accepted
  {
    score == "common_neighbors" || Truthy("jaccard") || Truthy("adamic_adar")
  }

  class Recommendations {
    var graph: Graph
    var numberOfSuggestions: int
    var recommendations: map<Node, seq<Node>>
    /** The `algo` attribute, which exists only once `find_recommendations` has run. */
    var algo: Option<string>
    /** Stands for `d => 1 / np.log(d)`, the Adamic-Adar weight of a friend with `d` friends. */
    const invLog: nat -> real

    /** `__init__(graph, number_of_suggestions=10)`, given the Adamic-Adar weight. */
    constructor (graph: Graph, invLog: nat -> real, numberOfSuggestions: int := 10)
      ensures this.graph == graph && this.numberOfSuggestions == numberOfSuggestions
      ensures this.invLog == invLog
      ensures recommendations == map[] && algo == None
    {
      this.graph := graph;
      this.numberOfSuggestions := numberOfSuggestions;
      this.invLog := invLog;
      recommendations := map[];
      algo := None;
    }

    /** `run_adamin_adar(node, candidate)`: adds up the weights of the shared friends, in any order. */
    method RunAdamicAdar(node: Node, candidate: Node) returns (score: real)
      requires node in graph.adj && candidate in graph.adj
      requires graph.adj[node] * graph.adj[candidate] <= graph.adj.Keys
      ensures score == Scorers.AdamicAdar(graph, invLog, node, candidate)
    {
      var common := graph.adj[node] * graph.adj[candidate];
      score := 0.0;
      var rest := common;
      while rest != {}
        invariant rest <= common
        invariant score + Scorers.WeightSum(graph, invLog, rest) == Scorers.WeightSum(graph, invLog, common)
        decreases rest
      {
        NonEmptyHasMember(rest);
        var friend :| friend in rest;
        Scorers.WeightSumPick(graph, invLog, rest, friend);
        score := score + invLog(|graph.adj[friend]|);
        rest := rest - {friend};
      }
    }

    /**
     * `run_algorithm(node, algo)`: scores every eligible node in graph order,
     * keeps the non-zero scores in `node_rec`, and ranks them.
     */
    method RunAlgorithm(node: Node, algo: string) returns (ranked: seq<Node>)
      requires Callable(graph, algo, node)
      ensures ranked == Ranked(graph, invLog, algo, node)
    {
      var nodeRec: seq<(Node, real)> := [];
      var i := 0;
      while i < |graph.order|
        invariant 0 <= i <= |graph.order|
        invariant nodeRec == Scored(graph, invLog, algo, node, Candidates(graph, invLog, algo, node, graph.order[..i]))
      {
        var candidate := graph.order[i];
        assert graph.order[..i + 1] == graph.order[..i] + [candidate];
        KeptStep(graph, invLog, algo, node, graph.order[..i], candidate);
        if candidate != node && candidate !in graph.adj[node] {
          var score: real;
          if algo == "common_neighbors" {
            score := Scorers.CommonNeighbors(graph, node, candidate) as real;
          } else if algo == "jaccard" {
            score := Scorers.Jaccard(graph, node, candidate);
          } else if algo == "adamic_adar" {
            score := RunAdamicAdar(node, candidate);
          } else {
            score := 0.0;
          }
          if score != 0.0 {
            nodeRec := nodeRec + [(candidate, score)];
          }
        }
        i := i + 1;
      }
      assert graph.order[..i] == graph.order;
      ranked := SortNodes(nodeRec);
    }

    /**
     * `find_recommendations(score)`: records the score name and replaces the
     * table by one holding, for every node of the graph, the first
     * `number_of_suggestions` nodes of its ranking.
     */
    method FindRecommendations(score: string)
      requires graph.Valid()
      requires forall node :: node in graph.adj ==> Callable(graph, score, node)
      modifies this`recommendations, this`algo
      ensures algo == Some(score)
      ensures graph == old(graph) && numberOfSuggestions == old(numberOfSuggestions)
      ensures recommendations.Keys == graph.adj.Keys
      ensures forall node :: node in recommendations ==>
        recommendations[node] == Truncate(Ranked(graph, invLog, score, node), numberOfSuggestions)
    {
      assert ScoreNameAccepted(score);
      algo := Some(score);
      var rec: map<Node, seq<Node>> := map[];
      var i := 0;
      while i < |graph.order|
        invariant 0 <= i <= |graph.order|
        invariant algo == Some(score)
        invariant forall node :: node in rec <==> node in graph.order[..i]
        invariant forall node :: node in rec ==>
          node in graph.adj && rec[node] == Truncate(Ranked(graph, invLog, score, node), numberOfSuggestions)
      {
        var node := graph.order[i];
        assert graph.order[..i + 1] == graph.order[..i] + [node];
        var ranked := RunAlgorithm(node, score);
        rec := rec[node := Truncate(ranked, numberOfSuggestions)];
        i := i + 1;
      }
      assert graph.order[..i] == graph.order;
      forall node ensures node in rec.Keys <==> node in graph.adj.Keys {
        assert node in rec <==> node in graph.order;
      }
      assert rec.Keys == graph.adj.Keys;
      recommendations := rec;
    }
  }
}
