/**
 * `DataFetcher.create_undirected_graph`: makes an edge list undirected by
 * appending, to the very list it walks, the reverse of every edge whose
 * reverse is not in the list yet.
 */
module DataFetcher {
  import opened FriendGraph

  /** A directed edge `[src, dst]` of the edge list. */
  datatype Edge = Edge(src: int, dst: int)

  /** `[edge[1], edge[0]]`: the same edge the other way round. */
  function Reverse(e: Edge): Edge
  {
    Edge(e.dst, e.src)
  }

  /** The edges of `l` whose reverse is missing from `l`. */
  function Unmatched(l: seq<Edge>): set<Edge>
  {
    set e | e in l && Reverse(e) !in l
  }

  /** Appending a missing reverse matches its edge and unmatches nothing. */
  lemma UnmatchedShrinks(l: seq<Edge>, e: Edge)
    requires e in l && Reverse(e) !in l
    ensures Unmatched(l + [Reverse(e)]) < Unmatched(l)
  {
    assert e in Unmatched(l) && e !in Unmatched(l + [Reverse(e)]);
  }

  /**
   * The list the loop of `create_undirected_graph` leaves behind once it has
   * reached index `i` of the list `l`: the loop visits indices in turn,
   * including those of the edges it has appended itself.
   */
  function Sweep(l: seq<Edge>, i: nat): seq<Edge>
    requires i <= |l|
    decreases Unmatched(l), |l| - i
  {
    if i == |l| then l
    else if Reverse(l[i]) in l then Sweep(l, i + 1)
    else
      UnmatchedShrinks(l, l[i]);
      Sweep(l + [Reverse(l[i])], i + 1)
  }

  /** `create_undirected_graph(directed_graph)`, on the list's contents. */
  function Undirected(l: seq<Edge>): seq<Edge>
  {
    Sweep(l, 0)
  }

  /**
   * What holds of the list `l` grown from `l0` once the loop has reached
   * index `i`: `l0` is still its prefix; every appended edge is the reverse
   * of an edge of `l0` and was not in the list before; every visited edge
   * has its reverse in the list; and only visited edges of `l0` appended.
   */
  ghost predicate SweepInv(l0: seq<Edge>, l: seq<Edge>, i: nat)
  {
    && |l0| <= |l| && i <= |l|
    && l[..|l0|] == l0
    && (forall k :: |l0| <= k < |l| ==> Reverse(l[k]) in l0 && l[k] !in l[..k])
    && (forall k :: 0 <= k < i ==> Reverse(l[k]) in l)
    && |l| - |l0| <= i
    && |l| - |l0| <= |l0|
  }

  /**
   * Visiting an edge whose reverse is missing: the edge is an original one,
   * and appending its reverse keeps the invariant.
   */
  lemma AppendKeepsInv(l0: seq<Edge>, l: seq<Edge>, i: nat)
    requires SweepInv(l0, l, i) && i < |l| && Reverse(l[i]) !in l
    ensures i < |l0|
    ensures SweepInv(l0, l + [Reverse(l[i])], i + 1)
  {
    var e := l[i];
    if i >= |l0| {
      assert false;
    }
    var l' := l + [Reverse(e)];
    assert e == l0[i];
    assert l'[..|l|] == l && l'[..|l0|] == l0;
    forall k | |l0| <= k < |l'| ensures Reverse(l'[k]) in l0 && l'[k] !in l'[..k] {
      if k < |l| {
        assert l'[..k] == l[..k];
      }
    }
  }

  /** Visiting an edge whose reverse is present appends nothing and keeps the invariant. */
  lemma SkipKeepsInv(l0: seq<Edge>, l: seq<Edge>, i: nat)
    requires SweepInv(l0, l, i) && i < |l| && Reverse(l[i]) in l
    ensures SweepInv(l0, l, i + 1)
  {
    forall k | 0 <= k < i + 1 ensures Reverse(l[k]) in l {
      if k < i {
        assert Reverse(l[k]) in l;
      }
    }
  }

  lemma {:induction false} SweepKeepsInv(l0: seq<Edge>, l: seq<Edge>, i: nat)
    requires SweepInv(l0, l, i)
    ensures SweepInv(l0, Sweep(l, i), |Sweep(l, i)|)
    decreases Unmatched(l), |l| - i
  {
    if i < |l| {
      if Reverse(l[i]) in l {
        assert Sweep(l, i) == Sweep(l, i + 1);
        SkipKeepsInv(l0, l, i);
        SweepKeepsInv(l0, l, i + 1);
      } else {
        var l' := l + [Reverse(l[i])];
        assert Sweep(l, i) == Sweep(l', i + 1);
        AppendKeepsInv(l0, l, i);
        UnmatchedShrinks(l, l[i]);
        SweepKeepsInv(l0, l', i + 1);
      }
    }
  }

  lemma UndirectedInv(l0: seq<Edge>)
    ensures SweepInv(l0, Undirected(l0), |Undirected(l0)|)
  {
    assert l0[..|l0|] == l0;
    SweepKeepsInv(l0, l0, 0);
  }

  /**
   * The original edges stay, unchanged and in order, at the front; at most
   * as many edges are appended as there were; each appended edge is the
   * reverse of an original edge and was not in the list when appended.
   */
  lemma UndirectedExtends(l0: seq<Edge>)
    ensures |l0| <= |Undirected(l0)| <= 2 * |l0|
    ensures Undirected(l0)[..|l0|] == l0
    ensures forall k :: |l0| <= k < |Undirected(l0)| ==>
      Reverse(Undirected(l0)[k]) in l0 && Undirected(l0)[k] !in Undirected(l0)[..k]
  {
    UndirectedInv(l0);
  }

  /** The result is undirected: with every edge it holds its reverse. */
  lemma UndirectedClosed(l0: seq<Edge>)
    ensures forall e :: e in Undirected(l0) ==> Reverse(e) in Undirected(l0)
  {
    UndirectedInv(l0);
    var r := Undirected(l0);
    forall e | e in r ensures Reverse(e) in r {
      var k :| 0 <= k < |r| && r[k] == e;
    }
  }

  /** The result holds exactly the original edges and their reverses. */
  lemma UndirectedEdges(l0: seq<Edge>)
    ensures forall e :: e in Undirected(l0) <==> e in l0 || Reverse(e) in l0
  {
    UndirectedInv(l0);
    UndirectedClosed(l0);
    var r := Undirected(l0);
    forall e ensures e in r <==> e in l0 || Reverse(e) in l0 {
      if e in r {
        var k :| 0 <= k < |r| && r[k] == e;
        if k < |l0| {
          assert r[k] == r[..|l0|][k];
        }
      }
      if e in l0 {
        var k :| 0 <= k < |l0| && l0[k] == e;
        assert r[..|l0|][k] == e;
      }
      if Reverse(e) in l0 {
        var k :| 0 <= k < |l0| && l0[k] == Reverse(e);
        assert r[..|l0|][k] == Reverse(e);
        assert Reverse(Reverse(e)) == e;
      }
    }
  }

  /** A list without repeated edges stays without: an edge is appended only when absent. */
  lemma UndirectedNoRepeats(l0: seq<Edge>)
    requires Distinct(l0)
    ensures Distinct(Undirected(l0))
  {
    UndirectedInv(l0);
    var r := Undirected(l0);
    forall i, j | 0 <= i < j < |r| ensures r[i] != r[j] {
      if j < |l0| {
        assert r[i] == l0[i] && r[j] == l0[j];
      } else {
        assert r[i] in r[..j];
      }
    }
  }

  /** The edge list of the data-fetcher test. */
  function TestEdges(): seq<Edge>
  {
    [Edge(1, 0), Edge(1, 2), Edge(2, 3), Edge(3, 1), Edge(3, 0),
     Edge(3, 4), Edge(4, 5), Edge(4, 6), Edge(5, 4), Edge(5, 6)]
  }

  /** The edges the test expects back, as a set. */
  function ExpectedEdges(): set<Edge>
  {
    {Edge(1, 0), Edge(1, 2), Edge(2, 3), Edge(3, 1), Edge(3, 0), Edge(3, 4),
     Edge(4, 5), Edge(4, 6), Edge(5, 4), Edge(5, 6), Edge(0, 1), Edge(2, 1),
     Edge(3, 2), Edge(1, 3), Edge(0, 3), Edge(4, 3), Edge(6, 4), Edge(6, 5)}
  }

  /**
   * On the test's edge list the result holds exactly the pairs the test
   * expects, and holds each once.
   */
  lemma TestEdgesUndirected()
    ensures forall e :: e in Undirected(TestEdges()) <==> e in ExpectedEdges()
    ensures Distinct(Undirected(TestEdges()))
  {
    UndirectedEdges(TestEdges());
    UndirectedNoRepeats(TestEdges());
  }

  /** A Python list of edges, which callers share by reference. */
  class EdgeList {
    var edges: seq<Edge>

    constructor (edges: seq<Edge>)
      ensures this.edges == edges
    {
      this.edges := edges;
    }
  }

  /**
   * `create_undirected_graph(directed_graph)`: extends the caller's list in
   * place and returns that same list. The membership test is against the
   * growing list, which is the global `graph` of the module's main block.
   */
  method CreateUndirectedGraph(directedGraph: EdgeList) returns (undirectedGraph: EdgeList)
    modifies directedGraph
    ensures undirectedGraph == directedGraph
    ensures directedGraph.edges == Undirected(old(directedGraph.edges))
  {
    undirectedGraph := directedGraph;
    var i := 0;
    while i < |undirectedGraph.edges|
      invariant undirectedGraph == directedGraph
      invariant i <= |undirectedGraph.edges|
      invariant Sweep(undirectedGraph.edges, i) == Undirected(old(directedGraph.edges))
      decreases Unmatched(undirectedGraph.edges), |undirectedGraph.edges| - i
    {
      var directedEdge := undirectedGraph.edges[i];
      var undirectedEdge := Reverse(directedEdge);
      if undirectedEdge !in undirectedGraph.edges {
        UnmatchedShrinks(undirectedGraph.edges, directedEdge);
        undirectedGraph.edges := undirectedGraph.edges + [undirectedEdge];
      }
      i := i + 1;
    }
  }
}
