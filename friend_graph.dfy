/**
 * The in-memory friend graph both recommenders read: a Python dict from a
 * node to the set of its friends.
 */
module FriendGraph {

  /**
   * A node id. The recommenders only compare ids for equality and use them
   * as dict keys and set members, so any type with equality serves.
   */
  type Node = int

  datatype Option<T> = None | Some(value: T)

  /**
   * A friend dict. `adj` maps each node to its friends; `order` is the order
   * in which `for node in graph` visits the keys (insertion order), which
   * decides the order of tied recommendations.
   */
  datatype Graph = Graph(order: seq<Node>, adj: map<Node, set<Node>>)
  {
    /** What every Python dict satisfies: its iteration visits each key exactly once. */
    ghost predicate Valid()
    {
      && Distinct(order)
      && (forall u :: u in adj <==> u in order)
    }
  }

  /** No item occurs twice. */
  ghost predicate Distinct<T>(s: seq<T>)
  {
    forall i, j :: 0 <= i < j < |s| ==> s[i] != s[j]
  }

  /** The candidate filter of both recommenders: neither the node itself nor one of its friends. */
  predicate Eligible(g: Graph, node: Node, candidate: Node)
    requires node in g.adj
  {
    candidate != node && candidate !in g.adj[node]
  }

  /** A non-empty set of nodes has a member (so a loop over it can pick one). */
  lemma NonEmptyHasMember(s: set<Node>)
    requires s != {}
    ensures exists x :: x in s
  {
    if forall x :: x !in s {
      assert false;
    }
  }
}
