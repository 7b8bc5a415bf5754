/** The greedy clique cover of a cograph: take a maximum clique, count it as
    one test, remove its nodes from the graph and repeat; once the largest
    clique is a pair, cover the remaining edges pair by pair; every node
    left over is a test of its own. Cliquer's clique search is not part of
    this model: it is the oracle `cliqueOracle`, of which the cover only
    needs that it returns a clique of the graph it is given. */
module CliqueCover {
  import opened Graphs

  /** The term the comprehension in `Nodes` is triggered on. */
  predicate Below(x: nat, n: nat) {
    x < n
  }

  /** The nodes `0 .. n - 1`. */
  function Nodes(n: nat): (s: set<nat>)
    ensures forall x: nat :: x in s <==> x < n
  {
    set x: nat | x < n && Below(x, n)
  }

  lemma {:induction false} NodesSize(n: nat)
    ensures |Nodes(n)| == n
  {
    if n > 0 {
      NodesSize(n - 1);
      assert Nodes(n) == Nodes(n - 1) + {n - 1};
    }
  }

  lemma SubsetSize(s: set<nat>, t: set<nat>)
    requires s <= t
    ensures |s| <= |t|
  {
    assert t == s + (t - s);
  }

  /** The graph once the clique `c` is taken out: its nodes have no edges
      left and no adjacency set holds them. */
  function WithoutClique(adj: Adjacency, c: set<nat>): (r: Adjacency)
    ensures |r| == |adj|
  {
    seq(|adj|, i requires 0 <= i < |adj| => if i in c then {} else adj[i] - c)
  }

  /** Taking out a clique only removes edges, and keeps them symmetric. */
  lemma WithoutCliqueShrinks(adj: Adjacency, c: set<nat>)
    requires Symmetric(adj)
    ensures Symmetric(WithoutClique(adj, c))
    ensures forall i :: 0 <= i < |adj| ==> WithoutClique(adj, c)[i] <= adj[i]
    ensures forall x :: x in c && x < |adj| ==> WithoutClique(adj, c)[x] == {}
  {
    var next := WithoutClique(adj, c);
    forall a, b | HasEdge(next, a, b)
      ensures HasEdge(next, b, a)
    {
      assert HasEdge(adj, a, b) && a !in c && b !in c;
      assert HasEdge(adj, b, a);
    }
  }

  /** Every node of the tests taken so far. */
  function Union(cliques: seq<set<nat>>): set<nat> {
    if cliques == [] then {} else Union(cliques[..|cliques| - 1]) + cliques[|cliques| - 1]
  }

  lemma {:induction false} UnionMembers(cliques: seq<set<nat>>)
    ensures forall k :: 0 <= k < |cliques| ==> cliques[k] <= Union(cliques)
    ensures forall x :: x in Union(cliques) ==> exists k :: 0 <= k < |cliques| && x in cliques[k]
    decreases |cliques|
  {
    if cliques != [] {
      var prefix := cliques[..|cliques| - 1];
      UnionMembers(prefix);
      assert forall k :: 0 <= k < |prefix| ==> prefix[k] == cliques[k];
    }
  }

  lemma {:induction false} UnionAppend(a: seq<set<nat>>, b: seq<set<nat>>)
    ensures Union(a + b) == Union(a) + Union(b)
    decreases |b|
  {
    if b == [] {
      assert a + b == a;
    } else {
      UnionAppend(a, b[..|b| - 1]);
      assert (a + b)[..|a + b| - 1] == a + b[..|b| - 1];
    }
  }

  /** No node is in two tests. */
  ghost predicate Disjoint(cliques: seq<set<nat>>) {
    forall i, j :: 0 <= i < j < |cliques| ==> cliques[i] !! cliques[j]
  }

  /** Two runs of disjoint tests over disjoint nodes make one. */
  lemma AppendAll(a: seq<set<nat>>, b: seq<set<nat>>)
    requires Disjoint(a) && Disjoint(b) && Union(a) !! Union(b)
    ensures Disjoint(a + b) && Union(a + b) == Union(a) + Union(b)
  {
    UnionAppend(a, b);
    UnionMembers(a);
    UnionMembers(b);
    forall i, j | 0 <= i < j < |a + b|
      ensures (a + b)[i] !! (a + b)[j]
    {
      if j < |a| {
        assert (a + b)[i] == a[i] && (a + b)[j] == a[j];
      } else if i >= |a| {
        assert (a + b)[i] == b[i - |a|] && (a + b)[j] == b[j - |a|];
      } else {
        assert (a + b)[i] == a[i] && a[i] <= Union(a);
        assert (a + b)[j] == b[j - |a|] && b[j - |a|] <= Union(b);
      }
    }
  }

  lemma AppendOne(cliques: seq<set<nat>>, c: set<nat>)
    requires Disjoint(cliques) && c !! Union(cliques)
    ensures Disjoint(cliques + [c]) && Union(cliques + [c]) == Union(cliques) + c
  {
    assert [c][..0] == [];
    AppendAll(cliques, [c]);
  }

  /** The last test shares no node with the earlier ones. */
  lemma LastDisjoint(cliques: seq<set<nat>>)
    requires Disjoint(cliques) && cliques != []
    ensures Union(cliques[..|cliques| - 1]) !! cliques[|cliques| - 1]
  {
    var prefix := cliques[..|cliques| - 1];
    UnionMembers(prefix);
    assert forall k :: 0 <= k < |prefix| ==> prefix[k] == cliques[k];
  }

  /** Disjoint non-empty tests are at most as many as the nodes they cover. */
  lemma {:induction false} DisjointCount(cliques: seq<set<nat>>)
    requires Disjoint(cliques) && forall k :: 0 <= k < |cliques| ==> cliques[k] != {}
    ensures |cliques| <= |Union(cliques)|
    decreases |cliques|
  {
    if cliques != [] {
      var prefix, last := cliques[..|cliques| - 1], cliques[|cliques| - 1];
      assert forall k :: 0 <= k < |prefix| ==> prefix[k] == cliques[k];
      DisjointCount(prefix);
      LastDisjoint(cliques);
      assert Union(cliques) == Union(prefix) + last;
      assert |Union(cliques)| == |Union(prefix)| + |last|;
    }
  }

  /** The tests partition the nodes of `orig` into cliques of `orig`. */
  ghost predicate IsCliqueCover(orig: Adjacency, cliques: seq<set<nat>>) {
    && Union(cliques) == Nodes(|orig|)
    && Disjoint(cliques)
    && (forall k :: 0 <= k < |cliques| ==> cliques[k] != {} && IsClique(orig, cliques[k]))
  }

  /** What the cover keeps true between two tests: the graph has only lost
      edges and stayed symmetric, the covered nodes are isolated, and the
      tests so far are disjoint cliques of the original graph whose nodes
      are exactly the covered ones. */
  ghost predicate Cover(orig: Adjacency, adj: Adjacency, covered: set<nat>, cliques: seq<set<nat>>) {
    Shrunk(orig, adj, covered) && TestsOf(orig, covered, cliques)
  }

  /** The graph part of `Cover`. */
  ghost predicate Shrunk(orig: Adjacency, adj: Adjacency, covered: set<nat>) {
    && |adj| == |orig|
    && Symmetric(adj)
    && (forall i :: 0 <= i < |adj| ==> adj[i] <= orig[i])
    && (forall x :: x in covered ==> x < |adj| && adj[x] == {})
  }

  /** The tests part of `Cover`. */
  ghost predicate TestsOf(orig: Adjacency, covered: set<nat>, cliques: seq<set<nat>>) {
    && Union(cliques) == covered
    && Disjoint(cliques)
    && (forall k :: 0 <= k < |cliques| ==> cliques[k] != {} && IsClique(orig, cliques[k]))
  }

  /** A clique of at least two nodes has an edge at each of its nodes, so
      none of them is covered. */
  lemma CliqueUncovered(orig: Adjacency, adj: Adjacency, covered: set<nat>, c: set<nat>)
    requires Shrunk(orig, adj, covered) && IsClique(adj, c) && |c| >= 2
    ensures c !! covered
  {
    forall x | x in c
      ensures x !in covered
    {
      assert |c - {x}| >= 1;
      var y :| y in c - {x};
      assert HasEdge(adj, x, y);
    }
  }

  /** Taking out an uncovered clique of the current graph keeps the cover's
      invariant, with the clique as one more test. */
  lemma TakeClique(orig: Adjacency, adj: Adjacency, covered: set<nat>, cliques: seq<set<nat>>, c: set<nat>)
    requires Cover(orig, adj, covered, cliques) && IsClique(adj, c) && c != {} && c !! covered
    ensures Cover(orig, WithoutClique(adj, c), covered + c, cliques + [c])
    ensures |covered + c| == |covered| + |c|
  {
    ShrinkByClique(orig, adj, covered, c);
    CliqueOfOriginal(orig, adj, c);
    AddTestClique(orig, covered, cliques, c);
  }

  lemma ShrinkByClique(orig: Adjacency, adj: Adjacency, covered: set<nat>, c: set<nat>)
    requires Shrunk(orig, adj, covered) && IsClique(adj, c)
    ensures Shrunk(orig, WithoutClique(adj, c), covered + c)
  {
    WithoutCliqueShrinks(adj, c);
  }

  /** A clique of a graph that has only lost edges is a clique of the original. */
  lemma CliqueOfOriginal(orig: Adjacency, adj: Adjacency, c: set<nat>)
    requires |adj| == |orig| && (forall i :: 0 <= i < |adj| ==> adj[i] <= orig[i]) && IsClique(adj, c)
    ensures IsClique(orig, c)
  {
    forall x, y | x in c && y in c && x != y
      ensures HasEdge(orig, x, y)
    {
      assert HasEdge(adj, x, y);
    }
  }

  lemma AddTestClique(orig: Adjacency, covered: set<nat>, cliques: seq<set<nat>>, c: set<nat>)
    requires TestsOf(orig, covered, cliques) && IsClique(orig, c) && c != {} && c !! covered
    ensures TestsOf(orig, covered + c, cliques + [c])
    ensures |covered + c| == |covered| + |c|
  {
    AppendOne(cliques, c);
    assert (cliques + [c])[|cliques|] == c;
    assert forall k :: 0 <= k < |cliques| ==> (cliques + [c])[k] == cliques[k];
  }

  /** The last tests: every node not yet covered, on its own. */
  function Singles(covered: set<nat>, n: nat): seq<set<nat>> {
    if n == 0 then []
    else Singles(covered, n - 1) + (if n - 1 in covered then [] else [{n - 1}])
  }

  lemma {:induction false} SinglesUnion(covered: set<nat>, n: nat)
    ensures Union(Singles(covered, n)) == Nodes(n) - covered
    ensures Disjoint(Singles(covered, n))
  {
    if n > 0 {
      var before := Singles(covered, n - 1);
      SinglesUnion(covered, n - 1);
      NodesSplit(covered, n);
      if n - 1 !in covered {
        assert Singles(covered, n) == before + [{n - 1}];
        AppendOne(before, {n - 1});
      } else {
        assert Singles(covered, n) == before;
      }
    }
  }

  lemma NodesSplit(covered: set<nat>, n: nat)
    requires n > 0
    ensures n - 1 !in Nodes(n - 1) - covered
    ensures Nodes(n) - covered == (Nodes(n - 1) - covered) + (if n - 1 in covered then {} else {n - 1})
  {
  }

  lemma NodesStep(covered: set<nat>, n: nat)
    requires n > 0
    ensures |Nodes(n) - covered| == |Nodes(n - 1) - covered| + (if n - 1 in covered then 0 else 1)
  {
    NodesSplit(covered, n);
  }

  lemma SinglesStep(covered: set<nat>, n: nat)
    requires n > 0
    ensures |Singles(covered, n)| == |Singles(covered, n - 1)| + (if n - 1 in covered then 0 else 1)
  {
  }

  lemma {:induction false} SinglesCount(covered: set<nat>, n: nat)
    ensures |Singles(covered, n)| == |Nodes(n) - covered|
  {
    if n > 0 {
      SinglesCount(covered, n - 1);
      NodesStep(covered, n);
      SinglesStep(covered, n);
    } else {
      assert Nodes(n) - covered == {};
    }
  }

  /** `c` is one node below `n`. */
  ghost predicate Single(c: set<nat>, n: nat) {
    exists x: nat :: x < n && c == {x}
  }

  lemma {:induction false} SinglesShape(covered: set<nat>, n: nat)
    ensures forall k :: 0 <= k < |Singles(covered, n)| ==> Single(Singles(covered, n)[k], n)
  {
    if n > 0 {
      var before, after := Singles(covered, n - 1), Singles(covered, n);
      SinglesShape(covered, n - 1);
      forall k | 0 <= k < |after|
        ensures Single(after[k], n)
      {
        if k < |before| {
          assert after[k] == before[k];
          var x: nat :| x < n - 1 && before[k] == {x};
          assert x < n && after[k] == {x};
        } else {
          assert n - 1 < n && after[k] == {n - 1};
        }
      }
    }
  }

  lemma SingleClique(orig: Adjacency, c: set<nat>)
    requires Single(c, |orig|)
    ensures c != {} && IsClique(orig, c)
  {
    var x: nat :| x < |orig| && c == {x};
  }

  /** Ending the cover with every uncovered node as a test of its own
      completes a partition of the nodes into cliques. */
  lemma Finish(orig: Adjacency, adj: Adjacency, covered: set<nat>, cliques: seq<set<nat>>)
    requires Cover(orig, adj, covered, cliques)
    ensures |covered| <= |orig|
    ensures IsCliqueCover(orig, cliques + Singles(covered, |orig|))
    ensures |cliques + Singles(covered, |orig|)| == |cliques| + |orig| - |covered|
  {
    CoveredCount(covered, |orig|);
    SinglesCount(covered, |orig|);
    FinishTests(orig, covered, cliques);
  }

  /** The nodes below `n` not in `covered`, counted. */
  lemma CoveredCount(covered: set<nat>, n: nat)
    requires forall x :: x in covered ==> x < n
    ensures |covered| <= n && |Nodes(n) - covered| == n - |covered|
  {
    assert Nodes(n) == covered + (Nodes(n) - covered);
    SubsetSize(covered, Nodes(n));
    NodesSize(n);
  }

  lemma FinishTests(orig: Adjacency, covered: set<nat>, cliques: seq<set<nat>>)
    requires TestsOf(orig, covered, cliques) && forall x :: x in covered ==> x < |orig|
    ensures IsCliqueCover(orig, cliques + Singles(covered, |orig|))
  {
    var singles := Singles(covered, |orig|);
    var all := cliques + singles;
    SinglesUnion(covered, |orig|);
    SinglesShape(covered, |orig|);
    AppendAll(cliques, singles);
    forall k | 0 <= k < |all|
      ensures all[k] != {} && IsClique(orig, all[k])
    {
      if k >= |cliques| {
        assert all[k] == singles[k - |cliques|];
        SingleClique(orig, all[k]);
      } else {
        assert all[k] == cliques[k];
      }
    }
    assert Nodes(|orig|) == covered + (Nodes(|orig|) - covered);
  }

  /** A cover of at most one test per node. */
  lemma CoverSize(orig: Adjacency, cliques: seq<set<nat>>)
    requires IsCliqueCover(orig, cliques)
    ensures |cliques| <= |orig|
  {
    DisjointCount(cliques);
    NodesSize(|orig|);
  }

  /** The node the pair loop picks at `j`: the least neighbour `m` of `j`.
      Every node above `j` has lost its edges, so `m` is not above `j`; both
      have an edge, so neither is covered; and the nodes from `j` upwards
      have nothing to lose but the pair itself. */
  lemma PairClique(orig: Adjacency, adj: Adjacency, covered: set<nat>, cliques: seq<set<nat>>, j: nat, m: nat)
    requires Cover(orig, adj, covered, cliques) && j < |adj| && m in adj[j]
    requires forall k :: j < k < |adj| ==> adj[k] == {}
    ensures m <= j && IsClique(adj, {j, m}) && {j, m} !! covered
    ensures forall k :: j <= k < |adj| && k !in {j, m} ==> adj[k] !! {j, m}
  {
    assert HasEdge(adj, j, m) && HasEdge(adj, m, j);
    assert m in adj[j] && j in adj[m];
  }

  /** The least element of a non-empty set, which `set_return_next(s, -1)`
      returns. */
  ghost function Least(s: set<nat>): (m: nat)
    requires s != {}
    ensures m in s && forall y :: y in s ==> m <= y
    decreases s
  {
    var x :| x in s;
    if s - {x} == {} then
      assert s == {x};
      x
    else
      var r := Least(s - {x});
      assert forall y :: y in s ==> y == x || y in s - {x};
      if r < x then r else x
  }

  /** The pair loop as a function of the tests `done` so far, the graph,
      the covered nodes and the node `top` it has come down to: the highest
      node with an edge is paired with its least neighbour and the pair
      taken out; once no edge is left, every uncovered node is a test of
      its own. */
  ghost function GreedyPairs(done: seq<set<nat>>, adj: Adjacency, covered: set<nat>, top: int): seq<set<nat>>
    requires top < |adj|
    decreases top + 1, if 0 <= top && adj[top] != {} then 1 else 0
  {
    if top < 0 then done + Singles(covered, |adj|)
    else if adj[top] == {} then GreedyPairs(done, adj, covered, top - 1)
    else
      var pair: set<nat> := {top, Least(adj[top])};
      assert WithoutClique(adj, pair)[top] == {};
      GreedyPairs(done + [pair], WithoutClique(adj, pair), covered + pair, top)
  }

  /** A node without edges is passed over. */
  lemma SkipNode(done: seq<set<nat>>, adj: Adjacency, covered: set<nat>, top: nat)
    requires top < |adj| && adj[top] == {}
    ensures GreedyPairs(done, adj, covered, top) == GreedyPairs(done, adj, covered, top - 1)
  {
  }

  /** Nodes without edges from `from` down to `top` are passed over. */
  lemma {:induction false} SkipNodes(done: seq<set<nat>>, adj: Adjacency, covered: set<nat>, from: int, top: int)
    requires -1 <= top <= from < |adj|
    requires forall k :: top < k <= from ==> adj[k] == {}
    ensures GreedyPairs(done, adj, covered, from) == GreedyPairs(done, adj, covered, top)
    decreases from - top
  {
    if top < from {
      SkipNode(done, adj, covered, from);
      SkipNodes(done, adj, covered, from - 1, top);
    }
  }

  /** A node with edges is paired with its least neighbour `m`. */
  lemma TakePair(done: seq<set<nat>>, adj: Adjacency, covered: set<nat>, top: nat, m: nat)
    requires top < |adj| && m in adj[top] && forall y :: y in adj[top] ==> m <= y
    ensures GreedyPairs(done, adj, covered, top) ==
      GreedyPairs(done + [{top, m}], WithoutClique(adj, {top, m}), covered + {top, m}, top)
  {
    assert m == Least(adj[top]);
  }

  /** The whole greedy cover as a function of the tests `done` so far and
      the graph: the oracle's clique while it has more than two nodes and
      some node is left uncovered, then the pair loop when it has two, and
      single tests otherwise. */
  ghost function GreedyCover(done: seq<set<nat>>, cliqueOracle: Adjacency -> set<nat>, orig: Adjacency,
                             adj: Adjacency, covered: set<nat>): seq<set<nat>>
    requires Shrunk(orig, adj, covered) && forall a :: IsClique(a, cliqueOracle(a))
    decreases |adj| - |covered|
  {
    var c := cliqueOracle(adj);
    if |c| > 2 then
      CliqueUncovered(orig, adj, covered, c);
      ShrinkByClique(orig, adj, covered, c);
      if |covered + c| >= |adj| then done + [c]
      else GreedyCover(done + [c], cliqueOracle, orig, WithoutClique(adj, c), covered + c)
    else if |c| == 2 then GreedyPairs(done, adj, covered, |adj| - 1)
    else done + Singles(covered, |adj|)
  }

  /** One round of `GreedyCover`, by the size of the oracle's clique. */
  lemma GreedyCoverRound(done: seq<set<nat>>, cliqueOracle: Adjacency -> set<nat>, orig: Adjacency,
                         adj: Adjacency, covered: set<nat>)
    requires Shrunk(orig, adj, covered) && forall a :: IsClique(a, cliqueOracle(a))
    ensures var c := cliqueOracle(adj);
      && (|c| > 2 ==> Shrunk(orig, WithoutClique(adj, c), covered + c))
      && (|c| > 2 && |covered + c| >= |adj| ==> GreedyCover(done, cliqueOracle, orig, adj, covered) == done + [c])
      && (|c| > 2 && |covered + c| < |adj| ==>
            GreedyCover(done, cliqueOracle, orig, adj, covered)
            == GreedyCover(done + [c], cliqueOracle, orig, WithoutClique(adj, c), covered + c))
      && (|c| == 2 ==> GreedyCover(done, cliqueOracle, orig, adj, covered) == GreedyPairs(done, adj, covered, |adj| - 1))
      && (|c| < 2 ==> GreedyCover(done, cliqueOracle, orig, adj, covered) == done + Singles(covered, |adj|))
  {
    var c := cliqueOracle(adj);
    if |c| > 2 {
      ShrinkByClique(orig, adj, covered, c);
    }
  }

  /** `set_remove` of the clique `c` from the adjacency sets of the nodes
      below `below`, then the clique's own nodes cleared. When no other node
      from `below` upwards is adjacent to `c`, this takes out the clique. */
  method TakeOut(g: Graph, c: set<nat>, below: nat)
    requires g.Valid() && below <= g.n && forall x :: x in c ==> x < g.n
    requires forall k :: below <= k < g.n && k !in c ==> g.edges[k] !! c
    modifies g.edges
    ensures g.edges[..] == WithoutClique(old(g.edges[..]), c)
  {
    ghost var before := g.edges[..];
    for k := 0 to below
      invariant forall i :: 0 <= i < g.n ==> g.edges[i] == if i < k then before[i] - c else before[i]
    {
      g.edges[k] := g.edges[k] - c;
    }
    var rest := c;
    while rest != {}
      invariant rest <= c
      invariant forall i :: 0 <= i < g.n ==>
        g.edges[i] == if i in c - rest then {} else if i < below then before[i] - c else before[i]
      decreases rest
    {
      var i :| i in rest;
      g.edges[i] := {};
      rest := rest - {i};
    }
    assert forall i :: 0 <= i < g.n && i !in c && i >= below ==> before[i] - c == before[i];
  }

  /** The loop over pairs: from the highest node with an edge down, cover
      it and its least neighbour with one test; when no edge is left, every
      uncovered node is a test of its own. The tests added are those of
      `GreedyPairs`. */
  method CoverPairs(g: Graph, ghost orig: Adjacency, isCovered: set<nat>, tests: nat, ghost cliques: seq<set<nat>>)
    returns (total: nat, ghost all: seq<set<nat>>)
    requires g.Valid() && Cover(orig, g.edges[..], isCovered, cliques) && tests == |cliques|
    modifies g.edges
    ensures all == GreedyPairs(cliques, old(g.edges[..]), isCovered, g.n - 1)
    ensures IsCliqueCover(orig, all) && total == |all|
  {
    ghost var greedy := GreedyPairs(cliques, g.edges[..], isCovered, g.n - 1);
    var j: int := g.n - 1;
    var covered := isCovered;
    total, all := tests, cliques;
    while true
      invariant -1 <= j < g.n
      invariant Cover(orig, g.edges[..], covered, all) && total == |all|
      invariant forall k :: j < k < g.n ==> g.edges[k] == {}
      invariant greedy == GreedyPairs(all, g.edges[..], covered, j)
      decreases g.n - |covered|
    {
      ghost var edges := g.edges[..];
      ghost var from := j;
      j := HighestWithEdges(g, j);
      SkipNodes(all, edges, covered, from, j);
      if j < 0 {
        Finish(orig, g.edges[..], covered, all);
        total := total + (g.n - |covered|);
        all := all + Singles(covered, g.n);
        return;
      }
      total := total + 1;
      var m;
      ghost var allBefore, coveredBefore := all, covered;
      covered, all, m := CoverPair(g, orig, covered, all, j);
      TakePair(allBefore, edges, coveredBefore, j, m);
      CoveredCount(covered, g.n);
    }
  }

  /** The search loop of the pair loop: from `j` down, the first node
      with an edge, or -1 when there is none. */
  method HighestWithEdges(g: Graph, j: int) returns (top: int)
    requires g.Valid() && -1 <= j < g.n
    ensures -1 <= top <= j
    ensures top >= 0 ==> g.edges[top] != {}
    ensures forall k :: top < k <= j ==> g.edges[k] == {}
  {
    top := j;
    while top >= 0 && g.edges[top] == {}
      invariant -1 <= top <= j
      invariant forall k :: top < k <= j ==> g.edges[k] == {}
    {
      top := top - 1;
    }
  }

  /** One round of the pair loop: the test made of `top` and its least
      neighbour `m`, taken out of the graph. */
  method CoverPair(g: Graph, ghost orig: Adjacency, covered: set<nat>, ghost cliques: seq<set<nat>>, top: nat)
    returns (covered': set<nat>, ghost cliques': seq<set<nat>>, m: nat)
    requires g.Valid() && Cover(orig, g.edges[..], covered, cliques)
    requires top < g.n && g.edges[top] != {}
    requires forall k :: top < k < g.n ==> g.edges[k] == {}
    modifies g.edges
    ensures m in old(g.edges[top]) && forall y :: y in old(g.edges[top]) ==> m <= y
    ensures covered' == covered + {top, m} && cliques' == cliques + [{top, m}]
    ensures g.edges[..] == WithoutClique(old(g.edges[..]), {top, m})
    ensures Cover(orig, g.edges[..], covered', cliques') && |covered'| > |covered|
    ensures forall k :: top <= k < g.n ==> g.edges[k] == {}
  {
    ghost var least := Least(g.edges[top]);
    m :| m in g.edges[top] && forall y :: y in g.edges[top] ==> m <= y;
    var clique: set<nat> := {top, m};
    PairClique(orig, g.edges[..], covered, cliques, top, m);
    TakeClique(orig, g.edges[..], covered, cliques, clique);
    covered' := covered + clique;
    ghost var before := g.edges[..];
    TakeOut(g, clique, top);
    cliques' := cliques + [clique];
    assert forall k :: top <= k < g.n ==> g.edges[k] == WithoutClique(before, clique)[k];
  }

  /** One round with a clique of more than two nodes: the clique is one
      test, its nodes are covered, and it is taken out of the graph. */
  method CoverClique(g: Graph, ghost orig: Adjacency, covered: set<nat>, ghost cliques: seq<set<nat>>, c: set<nat>)
    returns (covered': set<nat>, ghost cliques': seq<set<nat>>)
    requires g.Valid() && Cover(orig, g.edges[..], covered, cliques)
    requires IsClique(g.edges[..], c) && |c| > 2
    modifies g.edges
    ensures covered' == covered + c && cliques' == cliques + [c]
    ensures g.edges[..] == WithoutClique(old(g.edges[..]), c)
    ensures Cover(orig, g.edges[..], covered', cliques') && |covered'| == |covered| + |c|
  {
    CliqueUncovered(orig, g.edges[..], covered, c);
    TakeClique(orig, g.edges[..], covered, cliques, c);
    covered' := covered + c;
    TakeOut(g, c, g.n);
    cliques' := cliques + [c];
  }

  /** `CoverCograph`: the number of tests of the greedy clique cover, which
      empties the graph's adjacency sets as it goes. `cliqueOracle` stands
      for Cliquer's search and returns a clique of the graph it is given.
      The tests are those of `GreedyCover`; every node ends in exactly one
      test, and every test is a clique of the graph as it was given. */
  method CoverCograph(g: Graph, cliqueOracle: Adjacency -> set<nat>) returns (tests: nat, ghost cliques: seq<set<nat>>)
    requires g.Valid() && Symmetric(g.edges[..])
    requires forall adj :: IsClique(adj, cliqueOracle(adj))
    modifies g.edges
    ensures cliques == GreedyCover([], cliqueOracle, old(g.edges[..]), old(g.edges[..]), {})
    ensures IsCliqueCover(old(g.edges[..]), cliques) && tests == |cliques|
  {
    ghost var orig := g.edges[..];
    var isCovered: set<nat> := {};
    tests, cliques := 0, [];
    ghost var greedy := GreedyCover([], cliqueOracle, orig, orig, {});
    while true
      invariant Cover(orig, g.edges[..], isCovered, cliques) && tests == |cliques|
      invariant |isCovered| <= g.n
      invariant greedy == GreedyCover(cliques, cliqueOracle, orig, g.edges[..], isCovered)
      decreases g.n - |isCovered|
    {
      var maxClique := cliqueOracle(g.edges[..]);
      GreedyCoverRound(cliques, cliqueOracle, orig, g.edges[..], isCovered);
      if |maxClique| > 2 {
        tests := tests + 1;
        isCovered, cliques := CoverClique(g, orig, isCovered, cliques, maxClique);
        if |isCovered| >= g.n {
          Finish(orig, g.edges[..], isCovered, cliques);
          AllCovered(orig, isCovered, cliques);
          return;
        }
      } else if |maxClique| == 2 {
        tests, cliques := CoverPairs(g, orig, isCovered, tests, cliques);
        return;
      } else {
        Finish(orig, g.edges[..], isCovered, cliques);
        tests := tests + (g.n - |isCovered|);
        cliques := cliques + Singles(isCovered, g.n);
        return;
      }
    }
  }

  /** With every node covered, no single test is left to add. */
  lemma AllCovered(orig: Adjacency, covered: set<nat>, cliques: seq<set<nat>>)
    requires |cliques + Singles(covered, |orig|)| == |cliques| + |orig| - |covered|
    requires |covered| >= |orig|
    ensures cliques + Singles(covered, |orig|) == cliques
  {
  }
}
