// Walks, reachability and hop distance over a finite edge set: the independent
// vocabulary in which the graph algorithms are specified.
module Reachability {

  type Node = string
  type Edges = set<(Node, Node)>

  ghost predicate Walk(edges: Edges, p: seq<Node>) {
    && p != []
    && forall i {:trigger p[i]} :: 0 <= i < |p| - 1 ==> (p[i], p[i + 1]) in edges
  }

  ghost predicate Joins(edges: Edges, p: seq<Node>, from: Node, to: Node) {
    Walk(edges, p) && p[0] == from && p[|p| - 1] == to
  }

  ghost predicate Reaches(edges: Edges, from: Node, to: Node) {
    exists p :: Joins(edges, p, from, to)
  }

  ghost predicate Mutual(edges: Edges, a: Node, b: Node) {
    Reaches(edges, a, b) && Reaches(edges, b, a)
  }

  // Some walk of at most `hops` edges leads from `from` to `to`.
  ghost predicate Within(edges: Edges, from: Node, to: Node, hops: int) {
    exists p :: Joins(edges, p, from, to) && |p| - 1 <= hops
  }

  // `d` is the least number of edges on a walk from `from` to `to`.
  ghost predicate Distance(edges: Edges, from: Node, to: Node, d: int) {
    Within(edges, from, to, d) && !Within(edges, from, to, d - 1)
  }

  lemma ReachesSelf(edges: Edges, a: Node)
    ensures Reaches(edges, a, a) && Within(edges, a, a, 0)
  {
    assert Joins(edges, [a], a, a);
  }

  lemma ReachesEdge(edges: Edges, a: Node, b: Node)
    requires (a, b) in edges
    ensures Reaches(edges, a, b)
  {
    assert Joins(edges, [a, b], a, b);
  }

  lemma ReachesTransitive(edges: Edges, a: Node, b: Node, c: Node)
    requires Reaches(edges, a, b) && Reaches(edges, b, c)
    ensures Reaches(edges, a, c)
  {
    var p :| Joins(edges, p, a, b);
    var q :| Joins(edges, q, b, c);
    var r := p + q[1..];
    forall i {:trigger r[i]} | 0 <= i < |r| - 1 ensures (r[i], r[i + 1]) in edges {
      if i < |p| - 1 {
        assert r[i] == p[i] && r[i + 1] == p[i + 1];
      } else {
        assert r[i] == q[i + 1 - |p|] && r[i + 1] == q[i + 2 - |p|];
      }
    }
    assert Joins(edges, r, a, c);
  }

  lemma WalkParts(edges: Edges, p: seq<Node>, i: nat)
    requires Walk(edges, p) && i < |p|
    ensures Joins(edges, p[..i + 1], p[0], p[i])
    ensures Joins(edges, p[i..], p[i], p[|p| - 1])
  {
    forall j {:trigger p[..i + 1][j]} | 0 <= j < i ensures (p[..i + 1][j], p[..i + 1][j + 1]) in edges {
      assert p[..i + 1][j] == p[j] && p[..i + 1][j + 1] == p[j + 1];
    }
    forall j {:trigger p[i..][j]} | 0 <= j < |p| - i - 1 ensures (p[i..][j], p[i..][j + 1]) in edges {
      assert p[i..][j] == p[i + j] && p[i..][j + 1] == p[i + j + 1];
    }
  }

  // A walk that starts inside a set and ends outside it crosses the boundary on an edge.
  lemma BoundaryEdge(edges: Edges, inside: set<Node>, a: Node, b: Node) returns (x: Node, y: Node)
    requires Reaches(edges, a, b) && a in inside && b !in inside
    ensures (x, y) in edges && x in inside && y !in inside
    ensures Reaches(edges, a, x) && Reaches(edges, y, b)
  {
    var p :| Joins(edges, p, a, b);
    var i := 0;
    while p[i + 1] in inside
      invariant 0 <= i < |p| - 1 && p[i] in inside
      decreases |p| - i
    {
      i := i + 1;
    }
    x, y := p[i], p[i + 1];
    WalkParts(edges, p, i);
    WalkParts(edges, p, i + 1);
  }

  lemma WithinExtends(edges: Edges, a: Node, b: Node, c: Node, hops: int)
    requires Within(edges, a, b, hops) && (b, c) in edges
    ensures Within(edges, a, c, hops + 1)
  {
    var p :| Joins(edges, p, a, b) && |p| - 1 <= hops;
    var r := p + [c];
    forall i {:trigger r[i]} | 0 <= i < |r| - 1 ensures (r[i], r[i + 1]) in edges {
      if i < |p| - 1 { assert r[i] == p[i] && r[i + 1] == p[i + 1]; }
    }
    assert Joins(edges, r, a, c);
  }

  lemma WithinMonotone(edges: Edges, a: Node, b: Node, j: int, k: int)
    requires Within(edges, a, b, j) && j <= k
    ensures Within(edges, a, b, k)
  {
    var p :| Joins(edges, p, a, b) && |p| - 1 <= j;
  }

  // ---------- the breadth-first bound ----------

  // A labelling `hops` of discovered nodes such that every finished node's successors
  // are labelled at most one higher, and every unfinished node is labelled at least `level`.
  ghost predicate Labelled(edges: Edges, from: Node, hops: map<Node, int>, done: set<Node>, level: int) {
    && from in hops && hops[from] == 0
    && (forall x, y :: x in done && (x, y) in edges ==> x in hops && y in hops && hops[y] <= hops[x] + 1)
    && (forall x :: x in hops && x !in done ==> level <= hops[x])
  }

  // Every walk no longer than `level` ends in a discovered node, labelled at most its length.
  lemma {:induction false} LabelBound(edges: Edges, from: Node, hops: map<Node, int>, done: set<Node>, level: int,
                                      p: seq<Node>)
    requires Labelled(edges, from, hops, done, level)
    requires Walk(edges, p) && p[0] == from && |p| - 1 <= level
    ensures p[|p| - 1] in hops && hops[p[|p| - 1]] <= |p| - 1
    decreases |p|
  {
    if |p| > 1 {
      var k := |p| - 2;
      WalkParts(edges, p, k);
      assert p[..k + 1][k] == p[k];
      LabelBound(edges, from, hops, done, level, p[..k + 1]);
      assert (p[k], p[k + 1]) in edges;
    }
  }
}
