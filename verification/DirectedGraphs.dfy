// The directed adjacency store of src/directed_graph.rs and its hop-bounded
// breadth-first shortest path.
module DirectedGraphs {
  import opened Wrappers
  import opened Ordering
  import opened Reachability

  type Adjacency = map<Node, seq<Node>>

  // The state of a breadth-first search: distances, parents, tree paths, and what is queued with its distance.
  type Hops = map<Node, int>
  type Parents = map<Node, Node>
  type Routes = map<Node, seq<Node>>
  type Queue = seq<(Node, nat)>

  // The edges handed to a store, repeated ones included, in order.
  type Additions = seq<(Node, Node)>

  function Get(lists: Adjacency, node: Node): seq<Node> {
    if node in lists then lists[node] else []
  }

  predicate Linked(lists: Adjacency, a: Node, b: Node) {
    b in Get(lists, a)
  }

  // The edge set an out-adjacency stands for.
  ghost function EdgesOf(outs: Adjacency): Edges {
    set from, to | from in outs && to in outs[from] :: (from, to)
  }

  // Both indexes are duplicate-free, transposes of each other, and stay inside `nodes`.
  ghost predicate Consistent(nodes: set<Node>, outs: Adjacency, ins: Adjacency) {
    && (forall n :: Distinct(Get(outs, n)))
    && (forall n :: Distinct(Get(ins, n)))
    && (forall a, b :: Linked(outs, a, b) <==> Linked(ins, b, a))
    && (forall a, b :: Linked(outs, a, b) ==> a in nodes && b in nodes)
  }

  // `entry(key).or_default()` followed by a push unless the value is already listed.
  function PushUnique(lists: Adjacency, key: Node, value: Node): (r: Adjacency) {
    var listed := Get(lists, key);
    lists[key := if value in listed then listed else listed + [value]]
  }

  // Distances recorded by a breadth-first search, with the parent pointers that witness them.
  ghost predicate ParentTree(edges: Edges, from: Node, hops: Hops, parent: Parents) {
    && from in hops && hops[from] == 0 && from !in parent
    && (forall x :: x in hops ==> hops[x] >= 0)
    && (forall x :: x in hops && x != from ==>
          && x in parent && parent[x] in hops
          && hops[x] == hops[parent[x]] + 1 && (parent[x], x) in edges)
  }

  function Reverse<T>(s: seq<T>): (r: seq<T>)
    ensures |r| == |s| && forall i :: 0 <= i < |s| ==> r[i] == s[|s| - 1 - i]
  {
    seq(|s|, i requires 0 <= i < |s| => s[|s| - 1 - i])
  }

  // Each node of the path is the recorded parent of the next.
  ghost predicate Follows(parent: Parents, path: seq<Node>) {
    forall i :: 0 < i < |path| ==> path[i] in parent && parent[path[i]] == path[i - 1]
  }

  // ---------- tie-breaking ----------

  // Where `x` is first listed; the length if it is not.
  function Position(s: seq<Node>, x: Node): (i: nat)
    ensures i <= |s| && (i < |s| ==> s[i] == x)
    ensures forall j :: 0 <= j < i ==> s[j] != x
  {
    if s == [] || s[0] == x then 0 else 1 + Position(s[1..], x)
  }

  ghost predicate Diverges(outs: Adjacency, p: seq<Node>, q: seq<Node>, k: int) {
    && 0 < k < |p| && k < |q| && (forall i :: 0 <= i < k ==> p[i] == q[i])
    && Position(Get(outs, p[k - 1]), p[k]) < Position(Get(outs, p[k - 1]), q[k])
  }

  // Where the paths part, `p` takes the out-neighbour that is listed first.
  ghost predicate Precedes(outs: Adjacency, p: seq<Node>, q: seq<Node>) {
    exists k :: Diverges(outs, p, q, k)
  }

  // `p` precedes every other path of its length with its endpoints.
  ghost predicate First(outs: Adjacency, p: seq<Node>)
    requires p != []
  {
    forall q :: Joins(EdgesOf(outs), q, p[0], p[|p| - 1]) && |q| == |p| ==> q == p || Precedes(outs, p, q)
  }

  lemma PrecedesTransitive(outs: Adjacency, p: seq<Node>, q: seq<Node>, r: seq<Node>)
    requires Precedes(outs, p, q) && Precedes(outs, q, r)
    ensures Precedes(outs, p, r)
  {
    hide Position, Get;
    var j :| Diverges(outs, p, q, j);
    var k :| Diverges(outs, q, r, k);
    var m := if j < k then j else k;
    assert p[m - 1] == q[m - 1];
    assert forall i :: 0 <= i < m ==> p[i] == q[i] && q[i] == r[i];
    assert Diverges(outs, p, r, m);
  }

  lemma PrecedesIsStrict(outs: Adjacency, p: seq<Node>)
    ensures !Precedes(outs, p, p)
  {
  }

  // The insertion order of the out-lists alone decides which shortest path is returned.
  lemma FirstIsUnique(outs: Adjacency, p: seq<Node>, q: seq<Node>)
    requires p != [] && Walk(EdgesOf(outs), p) && Walk(EdgesOf(outs), q) && |p| == |q|
    requires p[0] == q[0] && p[|p| - 1] == q[|q| - 1] && First(outs, p) && First(outs, q)
    ensures p == q
  {
    hide Precedes, Walk, EdgesOf;
    assert Joins(EdgesOf(outs), q, p[0], p[|p| - 1]);
    if p != q {
      PrecedesTransitive(outs, p, q, p);
      PrecedesIsStrict(outs, p);
    }
  }

  lemma PrecedesExtends(outs: Adjacency, p: seq<Node>, q: seq<Node>, x: Node, y: Node)
    requires Precedes(outs, p, q)
    ensures Precedes(outs, p + [x], q + [y])
  {
    var k :| Diverges(outs, p, q, k);
    assert Diverges(outs, p + [x], q + [y], k);
  }

  lemma PrecedesSibling(outs: Adjacency, p: seq<Node>, x: Node, y: Node)
    requires p != [] && Position(Get(outs, p[|p| - 1]), x) < Position(Get(outs, p[|p| - 1]), y)
    ensures Precedes(outs, p + [x], p + [y])
  {
    assert Diverges(outs, p + [x], p + [y], |p|);
  }

  // ---------- insertion order ----------

  // `e` was added at a time when `f` had not been.
  ghost predicate AddedBefore(added: Additions, e: (Node, Node), f: (Node, Node)) {
    exists i :: 0 <= i < |added| && added[i] == e && forall j :: 0 <= j <= i ==> added[j] != f
  }

  // Each list holds the targets that were added for its node, once each, in the order of their first additions.
  ghost predicate InAddedOrder(added: Additions, lists: Adjacency) {
    && (forall n, x :: x in Get(lists, n) <==> (n, x) in added)
    && (forall n, i, j :: 0 <= i < j < |Get(lists, n)| ==>
          AddedBefore(added, (n, Get(lists, n)[i]), (n, Get(lists, n)[j])))
  }

  function Flipped(added: Additions): (r: Additions)
    ensures |r| == |added| && forall i :: 0 <= i < |added| ==> r[i] == (added[i].1, added[i].0)
  {
    seq(|added|, i requires 0 <= i < |added| => (added[i].1, added[i].0))
  }

  lemma AddedAsymmetric(added: Additions, e: (Node, Node), f: (Node, Node))
    requires AddedBefore(added, e, f)
    ensures !AddedBefore(added, f, e)
  {
  }

  lemma AddedBeforeGrows(added: Additions, e: (Node, Node), f: (Node, Node), g: (Node, Node))
    ensures AddedBefore(added, e, f) ==> AddedBefore(added + [g], e, f)
    ensures e in added && g !in added ==> AddedBefore(added + [g], e, g)
  {
    var grown := added + [g];
    if i :| 0 <= i < |added| && added[i] == e && forall j :: 0 <= j <= i ==> added[j] != f {
      assert grown[i] == e;
    }
    if e in added && g !in added {
      var i :| 0 <= i < |added| && added[i] == e;
      assert grown[i] == e && forall j :: 0 <= j <= i ==> grown[j] == added[j] && added[j] in added;
    }
  }

  lemma PushedList(lists: Adjacency, key: Node, value: Node, n: Node)
    ensures var l := Get(lists, n);
      Get(PushUnique(lists, key, value), n) == if n == key && value !in l then l + [value] else l
  {
  }

  lemma PushInOrder(added: Additions, lists: Adjacency, key: Node, value: Node)
    requires InAddedOrder(added, lists)
    ensures InAddedOrder(added + [(key, value)], PushUnique(lists, key, value))
  {
    hide AddedBefore, Get, PushUnique;
    var e, grown, pushed := (key, value), added + [(key, value)], PushUnique(lists, key, value);
    forall n, x ensures x in Get(pushed, n) <==> (n, x) in grown {
      PushedList(lists, key, value, n);
      assert (n, x) in grown <==> (n, x) in added || (n, x) == e;
    }
    forall n, i, j | 0 <= i < j < |Get(pushed, n)|
      ensures AddedBefore(grown, (n, Get(pushed, n)[i]), (n, Get(pushed, n)[j]))
    {
      var x, y := Get(pushed, n)[i], Get(pushed, n)[j];
      PushedList(lists, key, value, n);
      AddedBeforeGrows(added, (n, x), (n, y), e);
      if j < |Get(lists, n)| {
        assert x == Get(lists, n)[i] && y == Get(lists, n)[j];
      } else {
        assert x == Get(lists, n)[i] && x in Get(lists, n);
      }
    }
  }

  lemma FlippedSnoc(added: Additions, from: Node, to: Node)
    ensures Flipped(added + [(from, to)]) == Flipped(added) + [(to, from)]
    ensures forall a, b :: (a, b) in Flipped(added) <==> (b, a) in added
  {
    forall a, b ensures (a, b) in Flipped(added) <==> (b, a) in added {
      if (b, a) in added {
        var i :| 0 <= i < |added| && added[i] == (b, a);
        assert Flipped(added)[i] == (a, b);
      }
    }
  }

  // Turning every edge round keeps which came first.
  lemma FlippedBefore(added: Additions, e: (Node, Node), f: (Node, Node))
    requires AddedBefore(Flipped(added), e, f)
    ensures AddedBefore(added, (e.1, e.0), (f.1, f.0))
  {
    var i :| 0 <= i < |added| && Flipped(added)[i] == e && forall j :: 0 <= j <= i ==> Flipped(added)[j] != f;
    assert added[i] == (e.1, e.0);
  }

  // Where the paths part, `p` takes the edge that was added first.
  ghost predicate TakesEarlier(added: Additions, p: seq<Node>, q: seq<Node>, k: int) {
    && 0 < k < |p| && k < |q| && (forall i :: 0 <= i < k ==> p[i] == q[i])
    && AddedBefore(added, (p[k - 1], p[k]), (q[k - 1], q[k]))
  }

  // `p` does so against every other path of its length with its endpoints.
  ghost predicate EarliestAdded(edges: Edges, added: Additions, p: seq<Node>)
    requires p != []
  {
    forall q :: Joins(edges, q, p[0], p[|p| - 1]) && |q| == |p| ==> q == p || exists k :: TakesEarlier(added, p, q, k)
  }

  lemma PositionOf(s: seq<Node>, x: Node)
    requires x in s
    ensures Position(s, x) < |s|
  {
    var i :| 0 <= i < |s| && s[i] == x;
  }

  // Position in the lists is order of insertion.
  lemma FirstIsEarliest(added: Additions, outs: Adjacency, p: seq<Node>)
    requires p != [] && Walk(EdgesOf(outs), p) && First(outs, p) && InAddedOrder(added, outs)
    ensures EarliestAdded(EdgesOf(outs), added, p)
  {
    hide AddedBefore, Position, Get;
    forall q | Joins(EdgesOf(outs), q, p[0], p[|p| - 1]) && |q| == |p| && q != p
      ensures exists k :: TakesEarlier(added, p, q, k)
    {
      var k :| Diverges(outs, p, q, k);
      assert (p[k - 1], p[k]) in EdgesOf(outs) && (q[k - 1], q[k]) in EdgesOf(outs);
      EdgeListed(outs, p[k - 1], p[k]);
      EdgeListed(outs, q[k - 1], q[k]);
      PositionOf(Get(outs, p[k - 1]), p[k]);
      PositionOf(Get(outs, p[k - 1]), q[k]);
      assert TakesEarlier(added, p, q, k);
    }
  }

  lemma EdgeListed(outs: Adjacency, a: Node, b: Node)
    ensures (a, b) in EdgesOf(outs) <==> b in Get(outs, a)
  {
  }

  // The order of insertion alone decides which shortest path is returned.
  lemma EarliestIsUnique(edges: Edges, added: Additions, p: seq<Node>, q: seq<Node>)
    requires p != [] && Joins(edges, p, p[0], p[|p| - 1]) && Joins(edges, q, p[0], p[|p| - 1]) && |p| == |q|
    requires EarliestAdded(edges, added, p) && EarliestAdded(edges, added, q)
    ensures p == q
  {
    hide AddedBefore, Walk;
    if p != q {
      var j :| TakesEarlier(added, p, q, j);
      var k :| TakesEarlier(added, q, p, k);
      AddedAsymmetric(added, (p[j - 1], p[j]), (q[j - 1], q[j]));
      AddedAsymmetric(added, (q[k - 1], q[k]), (p[k - 1], p[k]));
    }
  }

  // ---------- the routes of the search ----------

  // The tree path of every discovered node.
  ghost predicate Routed(edges: Edges, from: Node, hops: Hops, parent: Parents, routes: Routes) {
    && routes.Keys == hops.Keys && from in routes && routes[from] == [from]
    && (forall x :: x in routes ==> Joins(edges, routes[x], from, x) && |routes[x]| == hops[x] + 1)
    && (forall x :: x in routes && x != from ==>
      x in parent && parent[x] in routes && routes[x] == routes[parent[x]] + [x])
  }

  ghost predicate AllFirst(outs: Adjacency, routes: Routes) {
    forall x :: x in routes ==> routes[x] != [] && First(outs, routes[x])
  }

  // The queue is ordered by route; a node one level deeper descends from the earlier node or one before it.
  ghost predicate InRouteOrder(outs: Adjacency, parent: Parents, routes: Routes,
                               a: (Node, nat), b: (Node, nat)) {
    && a.0 in routes && b.0 in routes && a.0 != b.0
    && (a.1 == b.1 ==> Precedes(outs, routes[a.0], routes[b.0]))
    && (a.1 != b.1 ==>
          && b.0 in parent && parent[b.0] in routes
          && (parent[b.0] == a.0 || Precedes(outs, routes[parent[b.0]], routes[a.0])))
  }

  ghost predicate QueueRanked(outs: Adjacency, parent: Parents, routes: Routes, queue: Queue) {
    forall i, j :: 0 <= i < j < |queue| ==> InRouteOrder(outs, parent, routes, queue[i], queue[j])
  }

  // Children belong to finished nodes, or to `node`, whose list has been read up to `listed`.
  ghost predicate ChildrenOf(parent: Parents, done: set<Node>, node: Node, listed: seq<Node>) {
    forall x :: x in parent ==> parent[x] in done || (parent[x] == node && x in listed)
  }

  ghost predicate Unfinished(done: set<Node>, queue: Queue) {
    forall i :: 0 <= i < |queue| ==> queue[i].0 !in done
  }

  ghost predicate Ranked(outs: Adjacency, from: Node, hops: Hops, parent: Parents,
                         routes: Routes, done: set<Node>, node: Node, listed: seq<Node>, queue: Queue) {
    && Routed(EdgesOf(outs), from, hops, parent, routes) && AllFirst(outs, routes)
    && QueueRanked(outs, parent, routes, queue) && ChildrenOf(parent, done, node, listed) && Unfinished(done, queue)
  }

  lemma RankedStart(outs: Adjacency, from: Node)
    ensures Ranked(outs, from, map[from := 0], map[], map[from := [from]], {}, from, [], [(from, 0)])
  {
    assert forall q :: Joins(EdgesOf(outs), q, from, from) && |q| == 1 ==> q == [from];
  }

  lemma QueueTail(outs: Adjacency, parent: Parents, routes: Routes, head: (Node, nat), queue: Queue)
    requires QueueRanked(outs, parent, routes, [head] + queue)
    ensures QueueRanked(outs, parent, routes, queue)
    ensures forall i :: 0 <= i < |queue| ==> InRouteOrder(outs, parent, routes, head, queue[i])
  {
    hide InRouteOrder;
    var whole := [head] + queue;
    assert whole[0] == head && forall i :: 0 <= i < |queue| ==> queue[i] == whole[i + 1];
  }

  // A node finished: its children are now those of a finished node.
  lemma RankedFinish(outs: Adjacency, from: Node, hops: Hops, parent: Parents, routes: Routes,
                     done: set<Node>, node: Node, d: nat, listed: seq<Node>, queue: Queue)
    requires Ranked(outs, from, hops, parent, routes, done, node, listed, [(node, d)] + queue)
    ensures Ranked(outs, from, hops, parent, routes, done + {node}, node, [], queue)
    ensures listed == [] ==> Ranked(outs, from, hops, parent, routes, done, node, [], queue)
  {
    hide Routed, AllFirst, QueueRanked, InRouteOrder;
    var whole := [(node, d)] + queue;
    assert forall i :: 0 <= i < |queue| ==> queue[i] == whole[i + 1];
    QueueTail(outs, parent, routes, (node, d), queue);
    forall i | 0 <= i < |queue| ensures queue[i].0 != node {
      RouteOrderDiffers(outs, parent, routes, (node, d), queue[i]);
    }
  }

  lemma RouteOrderDiffers(outs: Adjacency, parent: Parents, routes: Routes, a: (Node, nat), b: (Node, nat))
    requires InRouteOrder(outs, parent, routes, a, b)
    ensures a.0 != b.0
  {
  }

  // The last edge of a walk to an undiscovered node leaves an unfinished node of the current level.
  lemma LastEdge(edges: Edges, from: Node, hops: Hops, parent: Parents, done: set<Node>,
                 node: Node, d: nat, queue: Queue, maxHops: nat, q: seq<Node>)
    requires Search(edges, from, hops, parent, done, [(node, d)] + queue, maxHops)
    requires Walk(edges, q) && q[0] == from && |q| == d + 2 && q[d + 1] !in hops
    ensures Joins(edges, q[..d + 1], from, q[d]) && q == q[..d + 1] + [q[d + 1]]
    ensures q[d] in hops && hops[q[d]] == d && q[d] !in done
  {
    hide QueueOrdered, ParentTree;
    assert ([(node, d)] + queue)[0] == (node, d);
    WalkParts(edges, q, d);
    assert (q[d], q[d + 1]) in edges;
    LabelBound(edges, from, hops, done, d, q[..d + 1]);
  }

  lemma FirstOf(outs: Adjacency, routes: Routes, x: Node, p: seq<Node>)
    requires AllFirst(outs, routes) && x in routes && p != [] && |p| == |routes[x]|
    requires Joins(EdgesOf(outs), routes[x], p[0], x) && Joins(EdgesOf(outs), p, p[0], x)
    ensures p == routes[x] || Precedes(outs, routes[x], p)
  {
    hide Precedes, Walk;
  }

  // A node first seen from `node` is reached by no path of that length that precedes the one through `node`.
  lemma NewRouteBeats(outs: Adjacency, from: Node, hops: Hops, parent: Parents, routes: Routes,
                      done: set<Node>, node: Node, d: nat, listed: seq<Node>, queue: Queue, maxHops: nat, q: seq<Node>)
    requires Search(EdgesOf(outs), from, hops, parent, done, [(node, d)] + queue, maxHops) && d < maxHops
    requires Ranked(outs, from, hops, parent, routes, done, node, listed, [(node, d)] + queue)
    requires Walk(EdgesOf(outs), q) && q[0] == from && |q| == d + 2 && q[d + 1] !in hops
    ensures node in routes
    ensures q == routes[node] + [q[d + 1]] || Precedes(outs, routes[node] + [q[d + 1]], q)
  {
    hide Search, Precedes, AllFirst, Walk, QueueRanked, ChildrenOf, Unfinished;
    var p, u, next := q[..d + 1], q[d], q[d + 1];
    LastEdge(EdgesOf(outs), from, hops, parent, done, node, d, queue, maxHops, q);
    QueuedNode(EdgesOf(outs), from, hops, parent, routes, done, node, d, queue, maxHops, outs, listed, u);
    FirstOf(outs, routes, u, p);
    if u != node && p != routes[u] {
      PrecedesTransitive(outs, routes[node], routes[u], p);
    }
    if p != routes[node] {
      PrecedesExtends(outs, routes[node], p, next, next);
    }
  }

  lemma NewRouteFirst(outs: Adjacency, from: Node, hops: Hops, parent: Parents, routes: Routes,
                      done: set<Node>, node: Node, d: nat, listed: seq<Node>, queue: Queue, maxHops: nat, next: Node)
    requires Search(EdgesOf(outs), from, hops, parent, done, [(node, d)] + queue, maxHops) && d < maxHops
    requires Ranked(outs, from, hops, parent, routes, done, node, listed, [(node, d)] + queue)
    requires next !in hops && (node, next) in EdgesOf(outs)
    ensures node in routes && |routes[node]| == d + 1
    ensures Joins(EdgesOf(outs), routes[node] + [next], from, next) && First(outs, routes[node] + [next])
  {
    hide Search, Precedes, AllFirst, Walk, QueueRanked, ChildrenOf, Unfinished;
    TailSearch(EdgesOf(outs), from, hops, parent, done, node, d, queue, maxHops);
    JoinsEdge(EdgesOf(outs), routes[node], from, node, next);
    forall q | Joins(EdgesOf(outs), q, from, next) && |q| == d + 2
      ensures q == routes[node] + [next] || Precedes(outs, routes[node] + [next], q)
    {
      NewRouteBeats(outs, from, hops, parent, routes, done, node, d, listed, queue, maxHops, q);
    }
  }

  lemma JoinsEdge(edges: Edges, p: seq<Node>, a: Node, b: Node, c: Node)
    requires Joins(edges, p, a, b) && (b, c) in edges
    ensures Joins(edges, p + [c], a, c)
  {
    var r := p + [c];
    forall i {:trigger r[i]} | 0 <= i < |r| - 1 ensures (r[i], r[i + 1]) in edges {
      if i < |p| - 1 { assert r[i] == p[i] && r[i + 1] == p[i + 1]; }
    }
  }

  // An unfinished node of the current level is the head of the queue or behind it.
  lemma QueuedNode(edges: Edges, from: Node, hops: Hops, parent: Parents, routes: Routes,
                   done: set<Node>, node: Node, d: nat, queue: Queue, maxHops: nat, outs: Adjacency, listed: seq<Node>,
                   u: Node)
    requires Search(edges, from, hops, parent, done, [(node, d)] + queue, maxHops) && d < maxHops
    requires Ranked(outs, from, hops, parent, routes, done, node, listed, [(node, d)] + queue)
    requires u in hops && hops[u] == d && u !in done
    ensures node in routes && u in routes && (u == node || Precedes(outs, routes[node], routes[u]))
  {
    hide Precedes, AllFirst, ChildrenOf, Unfinished, ParentTree;
    var whole := [(node, d)] + queue;
    TailSearch(edges, from, hops, parent, done, node, d, queue, maxHops);
    if u != node {
      var i :| 0 <= i < |queue| && queue[i].0 == u;
      assert whole[i + 1] == queue[i] && whole[0] == (node, d);
      assert InRouteOrder(outs, parent, routes, whole[0], whole[i + 1]);
    }
  }

  // The new node goes to the end of the queue, and its route after all those queued.
  lemma NewRouteLast(outs: Adjacency, from: Node, hops: Hops, parent: Parents, routes: Routes,
                     done: set<Node>, node: Node, d: nat, listed: seq<Node>, queue: Queue, next: Node, a: (Node, nat))
    requires Ranked(outs, from, hops, parent, routes, done, node, listed, [(node, d)] + queue)
    requires QueueOrdered([(node, d)] + queue, hops) && a in [(node, d)] + queue
    requires next !in hops && next !in listed && listed <= Get(outs, node) && next in Get(outs, node)
    ensures node in routes
    ensures InRouteOrder(outs, parent[next := node], routes[next := routes[node] + [next]], a, (next, d + 1))
  {
    hide InRouteOrder, AllFirst, Joins;
    var whole := [(node, d)] + queue;
    QueueTail(outs, parent, routes, (node, d), queue);
    var i :| 0 <= i < |whole| && whole[i] == a;
    assert whole[0] == (node, d) && (i > 0 ==> whole[i] == queue[i - 1]);
    if i == 0 {
      HeadBefore(outs, parent, routes, node, d, next);
    } else {
      QueuedBefore(outs, hops, parent, routes, done, node, d, listed, next, a);
    }
  }

  lemma HeadBefore(outs: Adjacency, parent: Parents, routes: Routes, node: Node, d: nat, next: Node)
    requires node in routes && next !in routes
    ensures InRouteOrder(outs, parent[next := node], routes[next := routes[node] + [next]], (node, d), (next, d + 1))
  {
    hide Precedes;
  }

  lemma QueuedBefore(outs: Adjacency, hops: Hops, parent: Parents, routes: Routes, done: set<Node>,
                     node: Node, d: nat, listed: seq<Node>, next: Node, a: (Node, nat))
    requires InRouteOrder(outs, parent, routes, (node, d), a) && d <= a.1 <= d + 1
    requires a.1 == d + 1 && a.0 in parent && parent[a.0] in routes ==> routes[a.0] == routes[parent[a.0]] + [a.0]
    requires routes[node] != [] && routes[node][|routes[node]| - 1] == node
    requires a.1 == d + 1 && a.0 in parent && parent[a.0] == node ==> a.0 in listed
    requires next !in routes && next !in listed && listed <= Get(outs, node) && next in Get(outs, node)
    ensures InRouteOrder(outs, parent[next := node], routes[next := routes[node] + [next]], a, (next, d + 1))
  {
    hide Precedes;
    if a.1 == d + 1 {
      if parent[a.0] == node {
        ListedBefore(Get(outs, node), listed, a.0, next);
        PrecedesSibling(outs, routes[node], a.0, next);
      } else {
        PrecedesExtends(outs, routes[parent[a.0]], routes[node], a.0, next);
      }
    }
  }

  lemma ListedBefore(s: seq<Node>, listed: seq<Node>, x: Node, y: Node)
    requires listed <= s && x in listed && y !in listed && y in s
    ensures Position(s, x) < Position(s, y)
  {
    var i :| 0 <= i < |listed| && listed[i] == x;
    assert s[i] == x;
    assert forall j :: 0 <= j < |listed| ==> s[j] == listed[j];
  }

  lemma RankedGrows(outs: Adjacency, from: Node, hops: Hops, parent: Parents, routes: Routes,
                    done: set<Node>, node: Node, d: nat, listed: seq<Node>, queue: Queue, maxHops: nat, next: Node)
    requires Search(EdgesOf(outs), from, hops, parent, done, [(node, d)] + queue, maxHops) && d < maxHops
    requires Ranked(outs, from, hops, parent, routes, done, node, listed, [(node, d)] + queue)
    requires next !in hops && next !in listed && listed + [next] <= Get(outs, node) && (node, next) in EdgesOf(outs)
    ensures node in routes
    ensures Ranked(outs, from, hops[next := d + 1], parent[next := node], routes[next := routes[node] + [next]],
                                     done, node, listed + [next], [(node, d)] + (queue + [(next, d + 1)]))
  {
    hide Search, Routed, AllFirst, QueueRanked, ChildrenOf, Unfinished, First, Joins;
    var grown := [(node, d)] + (queue + [(next, d + 1)]);
    NewRouteFirst(outs, from, hops, parent, routes, done, node, d, listed, queue, maxHops, next);
    assert grown == [(node, d)] + queue + [(next, d + 1)];
    RoutedGrows(EdgesOf(outs), from, hops, parent, routes, node, d, next);
    AllFirstGrows(outs, routes, next, routes[node] + [next]);
    QueueGrows(outs, from, hops, parent, routes, done, node, d, listed, queue, maxHops, next);
    DoneDiscovered(EdgesOf(outs), from, hops, parent, done, [(node, d)] + queue, maxHops);
    ChildrenGrow(outs, from, hops, parent, routes, done, node, d, listed, queue, next);
  }

  lemma DoneDiscovered(edges: Edges, from: Node, hops: Hops, parent: Parents, done: set<Node>,
                       queue: Queue, maxHops: nat)
    requires Search(edges, from, hops, parent, done, queue, maxHops)
    ensures forall x :: x in done ==> x in hops
  {
    hide Labelled, ParentTree, QueueOrdered;
  }

  lemma RoutedGrows(edges: Edges, from: Node, hops: Hops, parent: Parents, routes: Routes,
                    node: Node, d: nat, next: Node)
    requires Routed(edges, from, hops, parent, routes) && node in routes && next !in hops
    requires Joins(edges, routes[node] + [next], from, next) && |routes[node]| == d + 1
    ensures Routed(edges, from, hops[next := d + 1], parent[next := node], routes[next := routes[node] + [next]])
  {
    hide Joins;
  }

  lemma AllFirstGrows(outs: Adjacency, routes: Routes, next: Node, route: seq<Node>)
    requires AllFirst(outs, routes) && route != [] && First(outs, route)
    ensures AllFirst(outs, routes[next := route])
  {
    hide First;
  }

  lemma ChildrenGrow(outs: Adjacency, from: Node, hops: Hops, parent: Parents, routes: Routes,
                     done: set<Node>, node: Node, d: nat, listed: seq<Node>, queue: Queue, next: Node)
    requires Ranked(outs, from, hops, parent, routes, done, node, listed, [(node, d)] + queue)
    requires forall x :: x in done ==> x in hops
    requires next !in hops
    ensures ChildrenOf(parent[next := node], done, node, listed + [next])
    ensures Unfinished(done, [(node, d)] + queue + [(next, d + 1)])
  {
    hide Routed, AllFirst, QueueRanked;
  }

  lemma QueueGrows(outs: Adjacency, from: Node, hops: Hops, parent: Parents, routes: Routes,
                   done: set<Node>, node: Node, d: nat, listed: seq<Node>, queue: Queue, maxHops: nat, next: Node)
    requires Search(EdgesOf(outs), from, hops, parent, done, [(node, d)] + queue, maxHops)
    requires Ranked(outs, from, hops, parent, routes, done, node, listed, [(node, d)] + queue)
    requires next !in hops && next !in listed && listed + [next] <= Get(outs, node) && node in routes
    ensures QueueRanked(outs, parent[next := node], routes[next := routes[node] + [next]],
      [(node, d)] + queue + [(next, d + 1)])
  {
    hide Frontier, ParentTree, QueueOrdered, AllFirst, ChildrenOf, Unfinished, InRouteOrder;
    var whole, grown := [(node, d)] + queue, [(node, d)] + queue + [(next, d + 1)];
    var parent', routes' := parent[next := node], routes[next := routes[node] + [next]];
    assert (listed + [next])[|listed|] == next && listed <= Get(outs, node);
    TailSearch(EdgesOf(outs), from, hops, parent, done, node, d, queue, maxHops);
    forall i, j | 0 <= i < j < |grown| ensures InRouteOrder(outs, parent', routes', grown[i], grown[j]) {
      if j < |whole| {
        RouteOrderKept(outs, hops, parent, routes, whole[i], whole[j], next, node, routes[node] + [next]);
      } else {
        NewRouteLast(outs, from, hops, parent, routes, done, node, d, listed, queue, next, whole[i]);
      }
    }
  }

  lemma RouteOrderKept(outs: Adjacency, hops: Hops, parent: Parents, routes: Routes,
                       a: (Node, nat), b: (Node, nat), next: Node, node: Node, route: seq<Node>)
    requires InRouteOrder(outs, parent, routes, a, b) && next !in routes
    ensures InRouteOrder(outs, parent[next := node], routes[next := route], a, b)
  {
    hide Precedes;
  }

  // With no list being read, any node may be named.
  lemma RankedPopped(outs: Adjacency, from: Node, hops: Hops, parent: Parents, routes: Routes,
                     done: set<Node>, node: Node, other: Node, queue: Queue)
    requires Ranked(outs, from, hops, parent, routes, done, node, [], queue)
    ensures Ranked(outs, from, hops, parent, routes, done, other, [], queue)
  {
    hide Routed, AllFirst, QueueRanked, Unfinished;
  }

  lemma RankedSeen(outs: Adjacency, from: Node, hops: Hops, parent: Parents, routes: Routes,
                   done: set<Node>, node: Node, listed: seq<Node>, next: Node, queue: Queue)
    requires Ranked(outs, from, hops, parent, routes, done, node, listed, queue)
    ensures Ranked(outs, from, hops, parent, routes, done, node, listed + [next], queue)
  {
    hide Routed, AllFirst, QueueRanked, Unfinished;
  }

  lemma RankedPath(outs: Adjacency, from: Node, hops: Hops, parent: Parents, routes: Routes,
                   done: set<Node>, node: Node, listed: seq<Node>, queue: Queue, path: seq<Node>)
    requires Ranked(outs, from, hops, parent, routes, done, node, listed, queue)
    requires ParentTree(EdgesOf(outs), from, hops, parent)
    requires path != [] && path[0] == from && Follows(parent, path) && path[|path| - 1] in hops
    ensures First(outs, path)
  {
    hide First, QueueRanked, ChildrenOf, Unfinished;
    FollowedRoute(EdgesOf(outs), from, hops, parent, routes, path);
  }

  lemma TrivialFirst(outs: Adjacency, a: Node)
    ensures First(outs, [a])
  {
  }

  lemma {:induction false} FollowedRoute(edges: Edges, from: Node, hops: Hops, parent: Parents,
                                         routes: Routes, path: seq<Node>)
    requires Routed(edges, from, hops, parent, routes) && from !in parent
    requires path != [] && path[0] == from && Follows(parent, path) && path[|path| - 1] in routes
    ensures path == routes[path[|path| - 1]]
  {
    hide Routed;
    var n := |path| - 1;
    if n == 0 {
      RouteSteps(edges, from, hops, parent, routes, from);
    } else {
      var x, before := path[n], path[..n];
      FollowsBack(parent, path);
      RouteSteps(edges, from, hops, parent, routes, x);
      FollowedRoute(edges, from, hops, parent, routes, before);
      assert path == before + [x];
    }
  }

  lemma FollowsBack(parent: Parents, path: seq<Node>)
    requires Follows(parent, path) && |path| > 1
    ensures var n := |path| - 1;
      path[n] in parent && parent[path[n]] == path[n - 1] == path[..n][n - 1] && Follows(parent, path[..n])
  {
    var before := path[..|path| - 1];
    forall i | 0 < i < |before| ensures before[i] in parent && parent[before[i]] == before[i - 1] {
      assert before[i] == path[i];
    }
  }

  lemma RouteSteps(edges: Edges, from: Node, hops: Hops, parent: Parents, routes: Routes, x: Node)
    requires Routed(edges, from, hops, parent, routes) && x in routes && from !in parent
    ensures if x == from then routes[x] == [x]
      else x in parent && parent[x] in routes && routes[x] == routes[parent[x]] + [x]
  {
    hide Joins;
  }

  method ReconstructPath(parent: Parents, from: Node, to: Node,
                         ghost edges: Edges, ghost hops: Hops)
    returns (path: seq<Node>)
    requires ParentTree(edges, from, hops, parent)
    requires to in hops && to != from
    ensures Joins(edges, path, from, to) && |path| == hops[to] + 1
    ensures Follows(parent, path)
  {
    path := [to];
    var cursor := to;
    while cursor in parent
      invariant path != [] && cursor in hops && cursor != from && path[|path| - 1] == cursor && path[0] == to
      invariant |path| - 1 + hops[cursor] == hops[to]
      invariant Backtracks(edges, parent, path)
      decreases hops[cursor]
    {
      var p := parent[cursor];
      path := path + [p];
      if p == from {
        break;
      }
      cursor := p;
    }
    BacktracksReversed(edges, parent, path);
    path := Reverse(path);
  }

  ghost predicate Backtracks(edges: Edges, parent: Parents, path: seq<Node>) {
    forall i {:trigger path[i]} :: 0 <= i < |path| - 1 ==>
      (path[i + 1], path[i]) in edges && path[i] in parent && parent[path[i]] == path[i + 1]
  }

  lemma BacktracksReversed(edges: Edges, parent: Parents, path: seq<Node>)
    requires path != [] && Backtracks(edges, parent, path)
    ensures Walk(edges, Reverse(path)) && Follows(parent, Reverse(path))
  {
    var r := Reverse(path);
    forall i | 0 < i < |r| ensures (r[i - 1], r[i]) in edges && r[i] in parent && parent[r[i]] == r[i - 1] {
      var j := |path| - 1 - i;
      assert r[i] == path[j] && (path[j + 1], path[j]) in edges;
    }
    forall i {:trigger r[i]} | 0 <= i < |r| - 1 ensures (r[i], r[i + 1]) in edges {
      assert (r[i + 1 - 1], r[i + 1]) in edges;
    }
  }

  class DirectedGraph {
    var nodes: set<Node>
    var outEdges: Adjacency
    var inEdges: Adjacency
    // Every edge added, in order.
    ghost var added: Additions

    ghost predicate Valid()
      reads this
    {
      && Consistent(nodes, outEdges, inEdges)
      && InAddedOrder(added, outEdges) && InAddedOrder(Flipped(added), inEdges)
    }

    ghost function EdgeSet(): Edges
      reads this
    {
      EdgesOf(outEdges)
    }

    constructor ()
      ensures Valid() && nodes == {} && EdgeSet() == {} && added == []
    {
      nodes := {};
      outEdges := map[];
      inEdges := map[];
      added := [];
    }

    method AddNode(node: Node)
      requires Valid()
      modifies this
      ensures Valid() && nodes == old(nodes) + {node}
      ensures outEdges == old(outEdges) && inEdges == old(inEdges) && added == old(added)
    {
      nodes := nodes + {node};
    }

    method AddEdge(from: Node, to: Node)
      requires Valid()
      modifies this
      ensures Valid() && nodes == old(nodes) + {from, to}
      ensures EdgeSet() == old(EdgeSet()) + {(from, to)} && added == old(added) + [(from, to)]
      ensures outEdges == PushUnique(old(outEdges), from, to)
      ensures inEdges == PushUnique(old(inEdges), to, from)
    {
      hide InAddedOrder;
      nodes := nodes + {from};
      nodes := nodes + {to};
      outEdges := PushUnique(outEdges, from, to);
      inEdges := PushUnique(inEdges, to, from);
      added := added + [(from, to)];
      PushKeepsConsistent(old(nodes), old(outEdges), old(inEdges), from, to);
      PushInOrder(old(added), old(outEdges), from, to);
      PushInOrder(Flipped(old(added)), old(inEdges), to, from);
      FlippedSnoc(old(added), from, to);
    }

    function Neighbors(node: Node): seq<Node>
      reads this
    {
      Get(outEdges, node)
    }

    function ReverseNeighbors(node: Node): seq<Node>
      reads this
    {
      Get(inEdges, node)
    }

    predicate ContainsEdge(from: Node, to: Node)
      reads this
      ensures ContainsEdge(from, to) <==> (from, to) in EdgeSet()
    {
      to in Neighbors(from)
    }

    method EdgeCount() returns (count: nat)
      requires Valid()
      ensures count == |EdgeSet()|
    {
      count := 0;
      var remaining := outEdges.Keys;
      while remaining != {}
        invariant remaining <= outEdges.Keys
        invariant count == |EdgesOf(outEdges - remaining)|
      {
        var k :| k in remaining;
        assert Distinct(Get(outEdges, k));
        ListedEdges(outEdges, remaining, k);
        count := count + |outEdges[k]|;
        remaining := remaining - {k};
      }
      assert outEdges - remaining == outEdges;
    }

    method ShortestPath(from: Node, to: Node, maxHops: nat) returns (r: Option<seq<Node>>)
      requires Valid()
      ensures r.Some? <==> from in nodes && to in nodes && Within(EdgeSet(), from, to, maxHops)
      ensures r.Some? ==> Joins(EdgeSet(), r.value, from, to)
      ensures r.Some? ==> Distance(EdgeSet(), from, to, |r.value| - 1)
      ensures r.Some? ==> First(outEdges, r.value) && EarliestAdded(EdgeSet(), added, r.value)
    {
      hide InAddedOrder, EarliestAdded;
      hide Search, Ranked, First, Routed, Follows, Consistent, Linked, Walk, ParentTree;
      LinkedIsEdge(outEdges);
      EndpointsKnown(nodes, outEdges, inEdges);
      ghost var edges := EdgeSet();
      if from !in nodes || to !in nodes {
        return None;
      }
      if from == to {
        TrivialPath(edges, from);
        TrivialFirst(outEdges, from);
        FirstIsEarliest(added, outEdges, [from]);
        return Some([from]);
      }
      var parent: Parents := map[];
      var visited: set<Node> := {from};
      var queue: Queue := [(from, 0)];
      ghost var hops: Hops := map[from := 0];
      ghost var done: set<Node> := {};
      ghost var routes := map[from := [from]];
      SearchStart(edges, from, maxHops);
      RankedStart(outEdges, from);
      while queue != []
        invariant visited == hops.Keys && visited <= nodes && to !in visited
        invariant Search(edges, from, hops, parent, done, queue, maxHops)
        invariant Ranked(outEdges, from, hops, parent, routes, done, from, [], queue)
        decreases nodes - visited, |queue|
      {
        var (node, d) := queue[0];
        assert queue == [(node, d)] + queue[1..];
        queue := queue[1..];
        HeadLevel(edges, from, hops, parent, done, node, d, queue, maxHops);
        RankedPopped(outEdges, from, hops, parent, routes, done, from, node, [(node, d)] + queue);
        if d == maxHops {
          RankedFinish(outEdges, from, hops, parent, routes, done, node, d, [], queue);
          RankedPopped(outEdges, from, hops, parent, routes, done, node, from, queue);
          SkipStep(edges, from, hops, parent, done, node, d, queue, maxHops);
          continue;
        }
        var outs := Neighbors(node);
        ghost var seen, rest := visited, queue;
        for i := 0 to |outs|
          invariant seen <= visited && visited == hops.Keys && visited <= nodes && to !in visited
          invariant visited == seen ==> queue == rest
          invariant Search(edges, from, hops, parent, done, [(node, d)] + queue, maxHops)
          invariant forall j :: 0 <= j < i ==> outs[j] in hops && hops[outs[j]] <= d + 1
          invariant Ranked(outEdges, from, hops, parent, routes, done, node, outs[..i], [(node, d)] + queue)
        {
          var next := outs[i];
          assert outs[..i + 1] == outs[..i] + [next];
          if next in visited {
            RankedSeen(outEdges, from, hops, parent, routes, done, node, outs[..i], next, [(node, d)] + queue);
            SeenBound(edges, from, hops, parent, done, node, d, queue, maxHops, next);
            continue;
          }
          assert Linked(outEdges, node, next);
          FoundStep(edges, from, hops, parent, done, node, d, queue, maxHops, next);
          RankedGrows(outEdges, from, hops, parent, routes, done, node, d, outs[..i], queue, maxHops, next);
          DiscoverStep(edges, from, hops, parent, done, node, d, queue, maxHops, next);
          visited := visited + {next};
          parent := parent[next := node];
          if next == to {
            var path := ReconstructPath(parent, from, to, edges, hops[next := d + 1]);
            RankedPath(outEdges, from, hops[next := d + 1], parent, routes[next := routes[node] + [next]], done, node,
                       outs[..i + 1], [(node, d)] + (queue + [(next, d + 1)]), path);
            FirstIsEarliest(added, outEdges, path);
            return Some(path);
          }
          hops, routes := hops[next := d + 1], routes[next := routes[node] + [next]];
          queue := queue + [(next, d + 1)];
        }
        FinishStep(edges, from, hops, parent, done, node, d, queue, maxHops);
        assert outs[..|outs|] == outs;
        RankedFinish(outEdges, from, hops, parent, routes, done, node, d, outs, queue);
        RankedPopped(outEdges, from, hops, parent, routes, done + {node}, node, from, queue);
        done := done + {node};
      }
      Undiscovered(edges, from, hops, parent, done, queue, maxHops, to);
      return None;
    }
  }

  // The neighbours of a node are the targets added for it, each once, in the order of their first additions.
  lemma NeighborsAsAdded(graph: DirectedGraph, n: Node)
    requires graph.Valid()
    ensures var l := graph.Neighbors(n);
      && (forall x :: x in l <==> (n, x) in graph.added)
      && (forall i, j :: 0 <= i < |l| && 0 <= j < |l| ==>
            (i < j <==> AddedBefore(graph.added, (n, l[i]), (n, l[j]))))
  {
    hide AddedBefore;
    var l := graph.Neighbors(n);
    forall i, j | 0 <= i < |l| && 0 <= j < |l|
      ensures i < j <==> AddedBefore(graph.added, (n, l[i]), (n, l[j]))
    {
      if i < j { AddedAsymmetric(graph.added, (n, l[i]), (n, l[j])); }
      if j < i { AddedAsymmetric(graph.added, (n, l[j]), (n, l[i])); }
      if i == j { NotBeforeItself(graph.added, (n, l[i])); }
    }
  }

  lemma NotBeforeItself(added: Additions, e: (Node, Node))
    ensures !AddedBefore(added, e, e)
  {
    if AddedBefore(added, e, e) { AddedAsymmetric(added, e, e); }
  }

  // So are those that point at it.
  lemma ReverseNeighborsAsAdded(graph: DirectedGraph, n: Node)
    requires graph.Valid()
    ensures var l := graph.ReverseNeighbors(n);
      && (forall x :: x in l <==> (x, n) in graph.added)
      && (forall i, j :: 0 <= i < |l| && 0 <= j < |l| ==>
            (i < j <==> AddedBefore(graph.added, (l[i], n), (l[j], n))))
  {
    hide AddedBefore;
    var l := graph.ReverseNeighbors(n);
    FlippedSnoc(graph.added, n, n);
    forall i, j | 0 <= i < j < |l| ensures AddedBefore(graph.added, (l[i], n), (l[j], n)) {
      assert l == Get(graph.inEdges, n);
      FlippedBefore(graph.added, (n, l[i]), (n, l[j]));
    }
    forall i, j | 0 <= i < |l| && 0 <= j < |l|
      ensures i < j <==> AddedBefore(graph.added, (l[i], n), (l[j], n))
    {
      if i < j { AddedAsymmetric(graph.added, (l[i], n), (l[j], n)); }
      if j < i { AddedAsymmetric(graph.added, (l[j], n), (l[i], n)); }
      if i == j { NotBeforeItself(graph.added, (l[i], n)); }
    }
  }

  // ---------- the breadth-first search invariant ----------

  ghost predicate Search(edges: Edges, from: Node, hops: Hops, parent: Parents, done: set<Node>,
                         queue: Queue, maxHops: nat) {
    && ParentTree(edges, from, hops, parent)
    && QueueOrdered(queue, hops)
    && Frontier(edges, from, hops, done, queue, maxHops)
  }

  lemma SearchStart(edges: Edges, from: Node, maxHops: nat)
    ensures Search(edges, from, map[from := 0], map[], {}, [(from, 0)], maxHops)
  {}

  // An undiscovered node is further away than the level the search has reached.
  lemma Undiscovered(edges: Edges, from: Node, hops: Hops, parent: Parents, done: set<Node>,
                     queue: Queue, maxHops: nat, to: Node)
    requires Search(edges, from, hops, parent, done, queue, maxHops) && to !in hops
    ensures !Within(edges, from, to, Level(queue, maxHops))
  {
    forall p | Joins(edges, p, from, to) && |p| - 1 <= Level(queue, maxHops) ensures false {
      LabelBound(edges, from, hops, done, Level(queue, maxHops), p);
    }
  }

  lemma HeadLevel(edges: Edges, from: Node, hops: Hops, parent: Parents, done: set<Node>,
                  node: Node, d: nat, queue: Queue, maxHops: nat)
    requires Search(edges, from, hops, parent, done, [(node, d)] + queue, maxHops)
    ensures d <= maxHops
  {
    assert ([(node, d)] + queue)[0] == (node, d);
  }

  lemma SkipStep(edges: Edges, from: Node, hops: Hops, parent: Parents, done: set<Node>,
                 node: Node, d: nat, queue: Queue, maxHops: nat)
    requires Search(edges, from, hops, parent, done, [(node, d)] + queue, maxHops) && d == maxHops
    ensures Search(edges, from, hops, parent, done, queue, maxHops)
  {
    TailSearch(edges, from, hops, parent, done, node, d, queue, maxHops);
  }

  // Dropping the head of the queue keeps its order, and loses at most that node.
  lemma TailSearch(edges: Edges, from: Node, hops: Hops, parent: Parents, done: set<Node>,
                   node: Node, d: nat, queue: Queue, maxHops: nat)
    requires Search(edges, from, hops, parent, done, [(node, d)] + queue, maxHops)
    ensures node in hops && hops[node] == d <= maxHops
    ensures QueueOrdered(queue, hops) &&
      forall i :: 0 <= i < |queue| ==> d <= queue[i].1 <= d + 1 && queue[i].1 <= maxHops
    ensures forall x :: x in hops ==>
      x in done || (d == hops[x] == maxHops) || x == node || exists i :: 0 <= i < |queue| && queue[i].0 == x
  {
    hide ParentTree, Labelled;
    var whole := [(node, d)] + queue;
    assert whole[0] == (node, d);
    assert forall i :: 0 <= i < |queue| ==> queue[i] == whole[i + 1];
    forall x | x in hops && x !in done && !(d == hops[x] == maxHops) && x != node
      ensures exists i :: 0 <= i < |queue| && queue[i].0 == x
    {
      var i :| 0 <= i < |whole| && whole[i].0 == x;
      assert queue[i - 1].0 == x;
    }
  }

  lemma SeenBound(edges: Edges, from: Node, hops: Hops, parent: Parents, done: set<Node>,
                  node: Node, d: nat, queue: Queue, maxHops: nat, x: Node)
    requires Search(edges, from, hops, parent, done, [(node, d)] + queue, maxHops) && x in hops
    ensures hops[x] <= d + 1
  {
    TailSearch(edges, from, hops, parent, done, node, d, queue, maxHops);
  }

  lemma GrownTree(edges: Edges, from: Node, hops: Hops, parent: Parents, node: Node, next: Node)
    requires ParentTree(edges, from, hops, parent) && node in hops && next !in hops && (node, next) in edges
    ensures ParentTree(edges, from, hops[next := hops[node] + 1], parent[next := node])
  {
  }

  lemma GrownFrontier(edges: Edges, from: Node, hops: Hops, done: set<Node>,
                      queue: Queue, maxHops: nat, next: Node, h: nat)
    requires Frontier(edges, from, hops, done, queue, maxHops) && queue != [] && next !in hops
    requires Level(queue, maxHops) <= h <= maxHops && Level(queue, maxHops) < maxHops
    ensures Frontier(edges, from, hops[next := h], done, queue + [(next, h)], maxHops)
  {
    var grown, hops' := queue + [(next, h)], hops[next := h];
    assert grown[|queue|] == (next, h);
    forall x | x in hops' && x !in done ensures exists i :: 0 <= i < |grown| && grown[i].0 == x {
      if x != next {
        var i :| 0 <= i < |queue| && queue[i].0 == x;
        assert grown[i].0 == x;
      }
    }
  }

  lemma DiscoverStep(edges: Edges, from: Node, hops: Hops, parent: Parents, done: set<Node>,
                     node: Node, d: nat, queue: Queue, maxHops: nat, next: Node)
    requires Search(edges, from, hops, parent, done, [(node, d)] + queue, maxHops) && d < maxHops
    requires (node, next) in edges && next !in hops
    ensures Search(edges, from, hops[next := d + 1], parent[next := node], done,
                   [(node, d)] + (queue + [(next, d + 1)]), maxHops)
  {
    hide Frontier, ParentTree;
    TailSearch(edges, from, hops, parent, done, node, d, queue, maxHops);
    var whole := [(node, d)] + queue;
    assert [(node, d)] + (queue + [(next, d + 1)]) == whole + [(next, d + 1)];
    GrownTree(edges, from, hops, parent, node, next);
    GrownFrontier(edges, from, hops, done, whole, maxHops, next, d + 1);
  }

  lemma FoundStep(edges: Edges, from: Node, hops: Hops, parent: Parents, done: set<Node>,
                  node: Node, d: nat, queue: Queue, maxHops: nat, next: Node)
    requires Search(edges, from, hops, parent, done, [(node, d)] + queue, maxHops)
    requires (node, next) in edges && next !in hops
    ensures ParentTree(edges, from, hops[next := d + 1], parent[next := node])
    ensures !Within(edges, from, next, d)
  {
    hide Within, Frontier, ParentTree, QueueOrdered;
    TailSearch(edges, from, hops, parent, done, node, d, queue, maxHops);
    GrownTree(edges, from, hops, parent, node, next);
    Undiscovered(edges, from, hops, parent, done, [(node, d)] + queue, maxHops, next);
  }

  lemma FinishStep(edges: Edges, from: Node, hops: Hops, parent: Parents, done: set<Node>,
                   node: Node, d: nat, queue: Queue, maxHops: nat)
    requires Search(edges, from, hops, parent, done, [(node, d)] + queue, maxHops) && d < maxHops
    requires forall y :: (node, y) in edges ==> y in hops && hops[y] <= d + 1
    ensures Search(edges, from, hops, parent, done + {node}, queue, maxHops)
  {
    TailSearch(edges, from, hops, parent, done, node, d, queue, maxHops);
  }

  // Queue entries carry the recorded distances, in order, spanning at most two levels.
  ghost predicate QueueOrdered(queue: Queue, hops: Hops) {
    && (forall i :: 0 <= i < |queue| ==> queue[i].0 in hops && hops[queue[i].0] == queue[i].1)
    && (forall i, j :: 0 <= i < j < |queue| ==> queue[i].1 <= queue[j].1 <= queue[i].1 + 1)
  }

  // The level the search has reached: the head of the queue, or the limit once it is empty.
  function Level(queue: Queue, maxHops: nat): nat {
    if queue == [] then maxHops else queue[0].1
  }

  // Discovered nodes are finished, still queued, or were skipped at the hop limit.
  ghost predicate Frontier(edges: Edges, from: Node, hops: Hops, done: set<Node>,
                           queue: Queue, maxHops: nat) {
    var level := Level(queue, maxHops);
    && Labelled(edges, from, hops, done, level)
    && (forall i :: 0 <= i < |queue| ==> queue[i].1 <= maxHops)
    && (forall x :: x in done ==> x in hops && hops[x] <= level)
    && (forall x :: x in hops ==>
          x in done || (level == hops[x] == maxHops) || exists i :: 0 <= i < |queue| && queue[i].0 == x)
  }

  lemma LinkedIsEdge(outs: Adjacency)
    ensures forall a, b :: Linked(outs, a, b) <==> (a, b) in EdgesOf(outs)
  {}

  lemma TrivialPath(edges: Edges, a: Node)
    ensures Joins(edges, [a], a, a) && Distance(edges, a, a, 0) && forall k: nat :: Within(edges, a, a, k)
  {
    ReachesSelf(edges, a);
  }

  lemma EndpointsKnown(nodes: set<Node>, outs: Adjacency, ins: Adjacency)
    requires Consistent(nodes, outs, ins)
    ensures forall a, b :: Linked(outs, a, b) ==> a in nodes && b in nodes
  {}

  lemma PushLinks(lists: Adjacency, key: Node, value: Node)
    requires forall n :: Distinct(Get(lists, n))
    ensures forall a, b :: Linked(PushUnique(lists, key, value), a, b) <==>
      Linked(lists, a, b) || (a == key && b == value)
    ensures forall n :: Distinct(Get(PushUnique(lists, key, value), n))
  {
    var pushed := PushUnique(lists, key, value);
    forall n ensures Distinct(Get(pushed, n)) {
      assert Distinct(Get(lists, n));
    }
  }

  lemma PushKeepsConsistent(nodes: set<Node>, outs: Adjacency, ins: Adjacency, from: Node, to: Node)
    requires Consistent(nodes, outs, ins)
    ensures Consistent(nodes + {from, to}, PushUnique(outs, from, to), PushUnique(ins, to, from))
    ensures EdgesOf(PushUnique(outs, from, to)) == EdgesOf(outs) + {(from, to)}
  {
    PushLinks(outs, from, to);
    PushLinks(ins, to, from);
    LinkedIsEdge(outs);
    LinkedIsEdge(PushUnique(outs, from, to));
  }

  // Moving one node's list from `remaining` to the counted part adds its length to the count.
  lemma ListedEdges(outs: Adjacency, remaining: set<Node>, k: Node)
    requires k in remaining && remaining <= outs.Keys && Distinct(outs[k])
    ensures |EdgesOf(outs - (remaining - {k}))| == |EdgesOf(outs - remaining)| + |outs[k]|
  {
    var before, after := EdgesOf(outs - remaining), EdgesOf(outs - (remaining - {k}));
    var added := set to | to in outs[k] :: (k, to);
    assert after == before + added;
    assert before !! added;
    PairsCount(k, outs[k]);
  }

  lemma {:induction false} PairsCount(k: Node, s: seq<Node>)
    requires Distinct(s)
    ensures |set to | to in s :: (k, to)| == |s|
  {
    if s != [] {
      PairsCount(k, s[1..]);
      var rest := set to | to in s[1..] :: (k, to);
      assert (set to | to in s :: (k, to)) == rest + {(k, s[0])};
      assert (k, s[0]) !in rest;
    }
  }
}
