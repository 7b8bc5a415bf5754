/** The graphs the clique cover works on, after Cliquer's `graph_t`: `n`
    nodes and, for every node, the set of its neighbours. Cliquer itself is
    not part of this model; its graph and set primitives are modelled by
    what they do to the adjacency sets. */
module Graphs {
  /** Adjacency as a value: `adj[i]` holds the neighbours of node `i`. */
  type Adjacency = seq<set<nat>>

  /** `b` is a neighbour of the node `a`. */
  predicate HasEdge(adj: Adjacency, a: int, b: int) {
    0 <= a < |adj| && b >= 0 && b in adj[a]
  }

  /** Every edge is recorded at both ends (so neighbours are nodes). */
  ghost predicate Symmetric(adj: Adjacency) {
    forall a, b :: HasEdge(adj, a, b) ==> HasEdge(adj, b, a)
  }

  /** The graph with no edges. */
  function NoEdges(n: nat): (adj: Adjacency)
    ensures |adj| == n && Symmetric(adj)
  {
    seq(n, _ => {})
  }

  /** `GRAPH_ADD_EDGE`: `b` joins the neighbours of `a` and `a` those of `b`. */
  function WithEdge(adj: Adjacency, a: nat, b: nat): Adjacency
    requires a < |adj| && b < |adj|
  {
    adj[a := adj[a] + {b}][b := adj[b] + {a}]
  }

  lemma WithEdgeSymmetric(adj: Adjacency, a: nat, b: nat)
    requires Symmetric(adj) && a < |adj| && b < |adj|
    ensures Symmetric(WithEdge(adj, a, b))
    ensures forall i :: 0 <= i < |adj| ==> adj[i] <= WithEdge(adj, a, b)[i]
    ensures b in WithEdge(adj, a, b)[a] && a in WithEdge(adj, a, b)[b]
  {
    var next := WithEdge(adj, a, b);
    forall i, j | HasEdge(next, i, j)
      ensures HasEdge(next, j, i)
    {
      assert next[i] == adj[i] + (if i == a then {b} else {}) + (if i == b then {a} else {});
      assert HasEdge(adj, i, j) || (i == a && j == b) || (i == b && j == a);
      assert next[j] == adj[j] + (if j == a then {b} else {}) + (if j == b then {a} else {});
    }
  }

  /** A set of distinct nodes, any two of them neighbours. */
  ghost predicate IsClique(adj: Adjacency, c: set<nat>) {
    && (forall x :: x in c ==> x < |adj|)
    && (forall x, y :: x in c && y in c && x != y ==> HasEdge(adj, x, y))
  }

  /** A graph of `n` nodes whose adjacency sets live in an array. */
  class Graph {
    const n: nat
    const edges: array<set<nat>>

    ghost predicate Valid()
      reads this
    {
      edges.Length == n
    }

    /** `graph_new`: `n` nodes and no edges. */
    constructor(n: nat)
      ensures Valid() && this.n == n && fresh(edges)
      ensures edges[..] == NoEdges(n)
    {
      this.n := n;
      edges := new set<nat>[n](_ => {});
    }

    /** `GRAPH_ADD_EDGE`. */
    method AddEdge(a: nat, b: nat)
      requires Valid() && a < n && b < n
      modifies edges
      ensures edges[..] == WithEdge(old(edges[..]), a, b)
    {
      edges[a] := edges[a] + {b};
      edges[b] := edges[b] + {a};
    }
  }
}
