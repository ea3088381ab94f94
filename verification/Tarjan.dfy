// Tarjan's strongly connected components over the directed adjacency store
// (src/directed_graph.rs, TarjanState).
module Tarjan {
  import opened Wrappers
  import opened Ordering
  import opened Reachability
  import opened DirectedGraphs

  // ---------- the search state, as a value ----------

  datatype Search = Search(next: nat, indices: map<Node, nat>, stack: seq<Node>, onStack: set<Node>,
                           components: seq<seq<Node>>)

  ghost function Emitted(components: seq<seq<Node>>): set<Node> {
    set c, x | c in components && x in c :: x
  }

  ghost predicate IsComponent(edges: Edges, c: seq<Node>) {
    c != [] && Distinct(c) && forall x, y :: x in c ==> (y in c <==> Mutual(edges, x, y))
  }

  // An edge leaving an emitted component leads to that component or one emitted before it.
  ghost predicate ReverseTopological(edges: Edges, components: seq<seq<Node>>) {
    forall i, x, y :: 0 <= i < |components| && x in components[i] && (x, y) in edges ==>
      y in Emitted(components[..i + 1])
  }

  // The visit index of a node; -1 before it is visited.
  function Index(s: Search, x: Node): int {
    if x in s.indices then s.indices[x] else -1
  }

  ghost predicate Ordered(s: Search) {
    && (forall x :: x in s.indices ==> Index(s, x) < s.next)
    && (forall x :: x in s.onStack <==> x in s.stack)
    && (forall x :: x in s.stack ==> x in s.indices)
    && (forall i, j :: 0 <= i < j < |s.stack| ==> Index(s, s.stack[i]) < Index(s, s.stack[j]))
  }

  ghost predicate Placed(s: Search) {
    && (forall x :: x in s.indices <==> x in s.onStack || x in Emitted(s.components))
    && (forall x :: x in s.onStack ==> x !in Emitted(s.components))
    && (forall i, j, x :: 0 <= i < j < |s.components| && x in s.components[i] ==> x !in s.components[j])
  }

  // `active` holds the nodes whose out-edges are still being walked.
  ghost predicate Explored(edges: Edges, s: Search, active: set<Node>) {
    && (forall x :: x in active ==> x in s.stack)
    && (forall x, y :: (x, y) in edges && x in s.indices && x !in active ==> y in s.indices)
  }

  ghost predicate StackLinked(edges: Edges, s: Search, active: set<Node>) {
    && (forall i, j :: 0 <= i <= j < |s.stack| ==> Reaches(edges, s.stack[i], s.stack[j]))
    && (forall y :: y in s.stack ==> exists x :: Anchors(edges, s, active, y, x))
  }

  // `y` leads back to the active node `x`, visited no later.
  ghost predicate Anchors(edges: Edges, s: Search, active: set<Node>, y: Node, x: Node) {
    x in active && Index(s, x) <= Index(s, y) && Reaches(edges, y, x)
  }

  ghost predicate Complete(edges: Edges, components: seq<seq<Node>>) {
    && (forall c :: c in components ==> IsComponent(edges, c))
    && ReverseTopological(edges, components)
  }

  ghost predicate Inv(edges: Edges, s: Search, active: set<Node>) {
    && Ordered(s) && Placed(s) && Explored(edges, s, active)
    && StackLinked(edges, s, active) && Complete(edges, s.components)
  }

  // What a visit never undoes.
  ghost predicate Extends(s: Search, t: Search) {
    && s.next <= t.next
    && s.stack <= t.stack
    && s.components <= t.components
    && (forall x :: x in s.indices ==> x in t.indices && Index(t, x) == Index(s, x))
    && (forall x :: x in t.indices && x !in s.indices ==> s.next <= Index(t, x))
  }

  // `low` names a node still on the stack of `s` that `node` leads back to.
  ghost predicate LeadsBack(edges: Edges, s: Search, t: Search, node: Node, low: nat) {
    exists y :: y in s.stack && Index(t, y) == low && Reaches(edges, node, y)
  }

  // No edge from the part of the stack above `s` (apart from `node`) drops below `low`.
  ghost predicate EdgesAbove(edges: Edges, s: Search, t: Search, node: Option<Node>, low: nat) {
    forall x, y :: x in t.stack && x !in s.stack && Some(x) != node && (x, y) in edges && y in s.stack ==>
      low <= Index(t, y)
  }

  // What the visit of `node`, begun in `s` and ended in `t`, reports as its lowlink.
  ghost predicate Reported(edges: Edges, s: Search, t: Search, node: Node, low: nat) {
    && Extends(s, t) && node in t.indices && node !in s.indices
    && low <= Index(t, node)
    && (if node in t.onStack then low < Index(t, node) && LeadsBack(edges, s, t, node, low)
        else t.stack == s.stack && low == Index(t, node))
    && EdgesAbove(edges, s, t, None, low)
  }

  // `node`, visited from `s`, sits directly above the stack of `s` and is reached from every active node.
  ghost predicate Opened(edges: Edges, s: Search, t: Search, active: set<Node>, node: Node, outs: seq<Node>) {
    && Extends(s, t) && node !in s.indices && node in t.indices && Index(t, node) == s.next
    && s.stack + [node] <= t.stack
    && (forall y :: (node, y) in edges <==> y in outs)
    && (forall x :: x in active ==> Reaches(edges, x, node))
  }

  // The lowlink after walking the first `i` out-edges of `node`.
  ghost predicate LowSoFar(edges: Edges, s: Search, t: Search, node: Node, outs: seq<Node>, i: nat, low: nat) {
    && i <= |outs|
    && (forall j :: 0 <= j < i ==> outs[j] in t.indices)
    && low <= Index(t, node)
    && (low == Index(t, node) || LeadsBack(edges, s, t, node, low))
    && EdgesAbove(edges, s, t, Some(node), low)
    && (forall j :: 0 <= j < i && outs[j] in s.stack ==> low <= Index(t, outs[j]))
  }

  ghost predicate Walking(edges: Edges, s: Search, t: Search, active: set<Node>, node: Node, outs: seq<Node>, i: nat,
                          low: nat) {
    && Inv(edges, s, active) && Inv(edges, t, active + {node})
    && Opened(edges, s, t, active, node, outs)
    && LowSoFar(edges, s, t, node, outs, i, low)
  }

  function Push(s: Search, node: Node): Search {
    Search(s.next + 1, s.indices[node := s.next], s.stack + [node], s.onStack + {node}, s.components)
  }

  // The state once everything above `depth` is popped and emitted as `component`.
  function Pop(s: Search, depth: nat, component: seq<Node>): Search
    requires depth <= |s.stack|
  {
    s.(stack := s.stack[..depth], onStack := s.onStack - (set x | x in s.stack[depth..]),
      components := s.components + [component])
  }

  function Min(a: nat, b: nat): nat {
    if a < b then a else b
  }

  lemma InvParts(edges: Edges, s: Search, active: set<Node>)
    ensures Inv(edges, s, active) <==> Ordered(s) && Placed(s) && Explored(edges, s, active)
                                       && StackLinked(edges, s, active) && Complete(edges, s.components)
  {
  }

  // ---------- the steps of a visit ----------

  lemma PushOrdered(edges: Edges, s: Search, active: set<Node>, node: Node)
    requires Ordered(s) && Placed(s) && Explored(edges, s, active) && node !in s.indices
    ensures Ordered(Push(s, node)) && Placed(Push(s, node)) && Explored(edges, Push(s, node), active + {node})
  {
    hide Emitted;
  }

  lemma PushLinked(edges: Edges, s: Search, active: set<Node>, node: Node)
    requires Ordered(s) && StackLinked(edges, s, active) && node !in s.indices
    requires forall x :: x in active ==> Reaches(edges, x, node) && x in s.stack
    ensures StackLinked(edges, Push(s, node), active + {node})
  {
    hide Reaches;
    var t := Push(s, node);
    ReachesSelf(edges, node);
    forall y | y in t.stack ensures exists x :: Anchors(edges, t, active + {node}, y, x) {
      if y == node {
        assert Anchors(edges, t, active + {node}, y, node);
      } else {
        var x :| Anchors(edges, s, active, y, x);
        assert Anchors(edges, t, active + {node}, y, x);
      }
    }
    forall z | z in s.stack ensures Reaches(edges, z, node) {
      var x :| Anchors(edges, s, active, z, x);
      ReachesTransitive(edges, z, x, node);
    }
  }

  lemma PushInv(edges: Edges, s: Search, active: set<Node>, node: Node)
    requires Inv(edges, s, active) && node !in s.indices
    requires forall x :: x in active ==> Reaches(edges, x, node)
    ensures Inv(edges, Push(s, node), active + {node})
  {
    hide Inv, Reaches, StackLinked, Complete, Placed, Ordered;
    InvParts(edges, s, active);
    PushOrdered(edges, s, active, node);
    PushLinked(edges, s, active, node);
    InvParts(edges, Push(s, node), active + {node});
  }

  lemma PushStep(edges: Edges, s: Search, active: set<Node>, node: Node, outs: seq<Node>)
    requires Inv(edges, s, active) && node !in s.indices
    requires forall x :: x in active ==> Reaches(edges, x, node)
    requires forall y :: (node, y) in edges <==> y in outs
    ensures Walking(edges, s, Push(s, node), active, node, outs, 0, s.next)
  {
    hide Inv, Reaches, Placed, Explored, StackLinked, Complete;
    PushInv(edges, s, active, node);
    InvParts(edges, s, active);
    assert Extends(s, Push(s, node));
  }

  lemma NextReached(edges: Edges, s: Search, t: Search, active: set<Node>, node: Node, outs: seq<Node>, next: Node)
    requires Opened(edges, s, t, active, node, outs) && next in outs
    ensures forall x :: x in active + {node} ==> Reaches(edges, x, next)
  {
    hide Reaches;
    ReachesEdge(edges, node, next);
    forall x | x in active ensures Reaches(edges, x, next) {
      ReachesTransitive(edges, x, node, next);
    }
  }

  lemma ExtendsTransitive(s: Search, t: Search, u: Search)
    requires Extends(s, t) && Extends(t, u)
    ensures Extends(s, u)
  {
  }

  // Everything on the stack with a smaller index than `node` was there before `node`.
  lemma BelowNode(s: Search, t: Search, node: Node, y: Node)
    requires Ordered(t) && s.stack + [node] <= t.stack && y in t.stack && Index(t, y) < Index(t, node)
    ensures y in s.stack
  {
    var i :| 0 <= i < |t.stack| && t.stack[i] == y;
    var k := |s.stack|;
    assert (s.stack + [node])[k] == node == t.stack[k];
    if i < k {
      assert s.stack[i] == (s.stack + [node])[i] == y;
    }
  }

  lemma EdgesAboveJoin(edges: Edges, s: Search, t: Search, u: Search, node: Node, low: nat, childLow: nat)
    requires Ordered(t) && Extends(s, t) && Extends(t, u)
    requires EdgesAbove(edges, s, t, Some(node), low) && EdgesAbove(edges, t, u, None, childLow)
    ensures EdgesAbove(edges, s, u, Some(node), Min(low, childLow))
  {
    assert forall y :: y in s.stack ==> y in t.stack;
  }

  lemma StillOpened(edges: Edges, s: Search, t: Search, u: Search, active: set<Node>, node: Node, outs: seq<Node>)
    requires Opened(edges, s, t, active, node, outs) && Extends(t, u)
    ensures Opened(edges, s, u, active, node, outs)
  {
    hide Reaches;
    ExtendsTransitive(s, t, u);
  }

  lemma ChildLow(edges: Edges, s: Search, t: Search, u: Search, active: set<Node>, node: Node, child: Node,
                 low: nat, childLow: nat)
    requires Ordered(s) && Ordered(t) && Extends(s, t) && s.stack + [node] <= t.stack && node in t.indices
    requires Reported(edges, t, u, child, childLow) && (node, child) in edges && low <= Index(t, node) < t.next
    requires low == Index(t, node) || LeadsBack(edges, s, t, node, low)
    ensures Min(low, childLow) == Index(u, node) || LeadsBack(edges, s, u, node, Min(low, childLow))
  {
    hide Reaches, EdgesAbove;
    if childLow < low {
      var y :| y in t.stack && Index(u, y) == childLow && Reaches(edges, child, y);
      BelowNode(s, t, node, y);
      ReachesEdge(edges, node, child);
      ReachesTransitive(edges, node, child, y);
      assert LeadsBack(edges, s, u, node, childLow);
    } else if low != Index(u, node) {
      var y :| y in s.stack && Index(t, y) == low && Reaches(edges, node, y);
      assert Index(u, y) == low;
      assert LeadsBack(edges, s, u, node, low);
    }
  }

  lemma AfterVisit(edges: Edges, s: Search, t: Search, u: Search, active: set<Node>, node: Node, outs: seq<Node>,
                   i: nat,
                   low: nat, childLow: nat)
    requires Walking(edges, s, t, active, node, outs, i, low) && i < |outs| && outs[i] !in t.indices
    requires Inv(edges, u, active + {node}) && Reported(edges, t, u, outs[i], childLow)
    ensures Walking(edges, s, u, active, node, outs, i + 1, Min(low, childLow))
  {
    hide Inv, Reaches, EdgesAbove, LeadsBack, Placed, Explored, StackLinked, Complete;
    InvParts(edges, s, active);
    InvParts(edges, t, active + {node});
    StillOpened(edges, s, t, u, active, node, outs);
    EdgesAboveJoin(edges, s, t, u, node, low, childLow);
    ChildLow(edges, s, t, u, active, node, outs[i], low, childLow);
    assert forall y :: y in s.stack ==> y in t.stack;
  }

  lemma AfterStacked(edges: Edges, s: Search, t: Search, active: set<Node>, node: Node, outs: seq<Node>, i: nat,
                     low: nat)
    requires Walking(edges, s, t, active, node, outs, i, low) && i < |outs| && outs[i] in t.onStack
    ensures outs[i] in t.indices
    ensures Walking(edges, s, t, active, node, outs, i + 1, Min(low, t.indices[outs[i]]))
  {
    hide Inv, Reaches, Placed, Explored, StackLinked, Complete;
    var y := outs[i];
    InvParts(edges, t, active + {node});
    assert (node, y) in edges;
    if Index(t, y) < low {
      BelowNode(s, t, node, y);
      ReachesEdge(edges, node, y);
      assert LeadsBack(edges, s, t, node, t.indices[y]);
    }
    assert EdgesAbove(edges, s, t, Some(node), Min(low, t.indices[y]));
  }

  lemma AfterEmitted(edges: Edges, s: Search, t: Search, active: set<Node>, node: Node, outs: seq<Node>, i: nat,
                     low: nat)
    requires Walking(edges, s, t, active, node, outs, i, low) && i < |outs| && outs[i] in t.indices
    requires outs[i] !in t.onStack
    ensures Walking(edges, s, t, active, node, outs, i + 1, low)
  {
    hide Inv, Reaches, EdgesAbove, Placed, Explored, StackLinked, Complete;
    InvParts(edges, t, active + {node});
    assert forall y :: y in s.stack ==> y in t.stack;
  }

  // ---------- closing a visit ----------

  lemma DeferredInv(edges: Edges, s: Search, t: Search, active: set<Node>, node: Node, low: nat)
    requires Ordered(t) && StackLinked(edges, t, active + {node}) && LeadsBack(edges, s, t, node, low)
    requires s.stack <= t.stack
    requires low < Index(t, node)
    requires forall y :: y in s.stack ==> exists x :: Anchors(edges, t, active, y, x)
    ensures StackLinked(edges, t, active)
  {
    hide Reaches;
    var y :| y in s.stack && Index(t, y) == low && Reaches(edges, node, y);
    var root :| Anchors(edges, t, active, y, root);
    ReachesTransitive(edges, node, y, root);
    forall z | z in t.stack ensures exists x :: Anchors(edges, t, active, z, x) {
      var x :| Anchors(edges, t, active + {node}, z, x);
      if x == node {
        ReachesTransitive(edges, z, node, root);
        assert Anchors(edges, t, active, z, root);
      } else {
        assert Anchors(edges, t, active, z, x);
      }
    }
  }

  lemma AnchorsKept(edges: Edges, s: Search, t: Search, active: set<Node>)
    requires Ordered(s) && Explored(edges, s, active) && StackLinked(edges, s, active) && Extends(s, t)
    ensures forall y :: y in s.stack ==> exists x :: Anchors(edges, t, active, y, x)
  {
    hide Reaches;
    forall y | y in s.stack ensures exists x :: Anchors(edges, t, active, y, x) {
      var x :| Anchors(edges, s, active, y, x);
      assert Anchors(edges, t, active, y, x);
    }
  }

  lemma EdgesAboveAll(edges: Edges, s: Search, t: Search, node: Node, outs: seq<Node>, low: nat)
    requires LowSoFar(edges, s, t, node, outs, |outs|, low) && forall y :: (node, y) in edges <==> y in outs
    ensures EdgesAbove(edges, s, t, None, low)
    ensures forall y :: (node, y) in edges ==> y in t.indices
  {
    hide LeadsBack;
    forall y | (node, y) in edges
      ensures y in t.indices && (y in s.stack ==> low <= Index(t, y))
    {
      var j :| 0 <= j < |outs| && outs[j] == y;
    }
  }

  lemma Deferred(edges: Edges, s: Search, t: Search, active: set<Node>, node: Node, outs: seq<Node>, low: nat)
    requires Walking(edges, s, t, active, node, outs, |outs|, low) && low != Index(t, node)
    ensures Inv(edges, t, active) && Reported(edges, s, t, node, low)
  {
    hide Inv, Reaches, EdgesAbove, LeadsBack, Placed, StackLinked, Complete;
    InvParts(edges, s, active);
    InvParts(edges, t, active + {node});
    EdgesAboveAll(edges, s, t, node, outs, low);
    AnchorsKept(edges, s, t, active);
    DeferredInv(edges, s, t, active, node, low);
    assert (s.stack + [node])[|s.stack|] == node;
    InvParts(edges, t, active);
  }

  lemma ReachesJoin(edges: Edges, a: Node, b: Node, c: Node)
    requires Mutual(edges, a, b) && Mutual(edges, b, c)
    ensures Mutual(edges, a, c)
  {
    ReachesTransitive(edges, a, b, c);
    ReachesTransitive(edges, c, b, a);
  }

  // Everything above `node` on the stack is mutually reachable with it.
  lemma AboveIsMutual(edges: Edges, t: Search, active: set<Node>, node: Node, k: nat, x: Node)
    requires Ordered(t) && StackLinked(edges, t, active + {node})
    requires k < |t.stack| && t.stack[k] == node && x in t.stack[k..]
    requires forall a :: a in active ==> Reaches(edges, a, node)
    ensures Mutual(edges, node, x)
  {
    hide Reaches;
    var j :| 0 <= j < |t.stack[k..]| && t.stack[k..][j] == x;
    assert t.stack[k + j] == x;
    assert x in t.stack;
    var a :| Anchors(edges, t, active + {node}, x, a);
    if a != node {
      ReachesTransitive(edges, x, a, node);
    }
  }

  // The stack of `t` is that of `s` with `node` on top, and what was pushed after it.
  lemma SplitStack(s: Search, t: Search, node: Node)
    requires Ordered(t) && s.stack + [node] <= t.stack
    ensures |s.stack| < |t.stack| && t.stack[|s.stack|] == node == t.stack[|s.stack|..][0]
    ensures t.stack[..|s.stack|] == s.stack && t.stack == s.stack + t.stack[|s.stack|..]
    ensures forall x :: x in s.stack ==> Index(t, x) < Index(t, node)
    ensures forall x :: x in t.stack[|s.stack|..] ==> Index(t, node) <= Index(t, x)
  {
    hide Index;
    var k := |s.stack|;
    PrefixTop(s.stack, node, t.stack);
    forall x | x in s.stack ensures Index(t, x) < Index(t, node) {
      var i :| 0 <= i < k && s.stack[i] == x;
      assert t.stack[..k][i] == x == t.stack[i];
    }
    forall x | x in t.stack[k..] ensures Index(t, node) <= Index(t, x) {
      var i :| 0 <= i < |t.stack[k..]| && t.stack[k..][i] == x;
      assert t.stack[k + i] == x;
    }
  }

  lemma PrefixTop(base: seq<Node>, top: Node, whole: seq<Node>)
    requires base + [top] <= whole
    ensures |base| < |whole| && whole[|base|] == top == whole[|base|..][0]
    ensures whole[..|base|] == base && whole == base + whole[|base|..]
  {
    assert whole[|base|] == (base + [top])[|base|];
    assert forall i :: 0 <= i < |base| ==> whole[i] == (base + [top])[i];
  }

  // Edges out of the popped part lead back into it or to an emitted node.
  lemma EdgeFromAbove(edges: Edges, s: Search, t: Search, active: set<Node>, node: Node, a: Node, b: Node)
    requires Ordered(t) && Placed(t) && Explored(edges, t, active + {node})
    requires EdgesAbove(edges, s, t, None, Index(t, node))
    requires node in t.indices && s.stack + [node] <= t.stack && forall y :: (node, y) in edges ==> y in t.indices
    requires forall x :: x in active ==> x in s.stack
    requires a in t.stack[|s.stack|..] && (a, b) in edges
    ensures b in t.stack[|s.stack|..] || b in Emitted(t.components)
  {
    hide Emitted;
    SplitStack(s, t, node);
    assert b in t.indices;
  }

  lemma EmittedClosed(edges: Edges, components: seq<seq<Node>>, b: Node, x: Node)
    requires Complete(edges, components) && b in Emitted(components) && Mutual(edges, b, x)
    ensures x in Emitted(components)
  {
    hide Reaches, ReverseTopological;
    var c :| c in components && b in c;
  }

  lemma MutualIsAbove(edges: Edges, s: Search, t: Search, active: set<Node>, node: Node, y: Node)
    requires Ordered(t) && Placed(t) && Explored(edges, t, active + {node})
    requires EdgesAbove(edges, s, t, None, Index(t, node))
    requires Complete(edges, t.components)
    requires node in t.indices && s.stack + [node] <= t.stack && forall y :: (node, y) in edges ==> y in t.indices
    requires forall x :: x in active ==> x in s.stack
    requires Mutual(edges, node, y)
    ensures y in t.stack[|s.stack|..]
  {
    hide Reaches, Explored, EdgesAbove, Complete, Emitted;
    var above := t.stack[|s.stack|..];
    SplitStack(s, t, node);
    if y !in above {
      var a, b := BoundaryEdge(edges, Elements(above), node, y);
      EdgeFromAbove(edges, s, t, active, node, a, b);
      ReachesTransitive(edges, b, y, node);
      ReachesEdge(edges, a, b);
      ReachesTransitive(edges, node, a, b);
      EmittedClosed(edges, t.components, b, node);
    }
  }

  // `component` lists the popped part of the stack, in any order.
  ghost predicate Lists(component: seq<Node>, above: seq<Node>) {
    Distinct(component) && |component| > 0 && forall x :: x in component <==> x in above
  }

  lemma PoppedIsComponent(edges: Edges, s: Search, t: Search, active: set<Node>, node: Node, component: seq<Node>)
    requires Inv(edges, t, active + {node}) && EdgesAbove(edges, s, t, None, Index(t, node))
    requires node in t.indices && s.stack + [node] <= t.stack && forall y :: (node, y) in edges ==> y in t.indices
    requires forall x :: x in active ==> x in s.stack && Reaches(edges, x, node)
    requires Lists(component, t.stack[|s.stack|..])
    ensures IsComponent(edges, component)
  {
    hide Inv, Ordered, Placed, Explored, EdgesAbove, StackLinked, Complete, Reaches;
    InvParts(edges, t, active + {node});
    var k := |s.stack|;
    SplitStack(s, t, node);
    forall x | x in component ensures Mutual(edges, node, x) {
      AboveIsMutual(edges, t, active, node, k, x);
    }
    forall x, y | x in component ensures y in component <==> Mutual(edges, x, y) {
      if y in component {
        ReachesJoin(edges, x, node, y);
      }
      if Mutual(edges, x, y) {
        ReachesJoin(edges, node, x, y);
        MutualIsAbove(edges, s, t, active, node, y);
      }
    }
  }

  lemma EmittedSnoc(components: seq<seq<Node>>, c: seq<Node>)
    ensures Emitted(components + [c]) == Emitted(components) + (set x | x in c)
  {
    forall x ensures x in Emitted(components + [c]) <==> x in Emitted(components) || x in c {
      if x in c { assert (components + [c])[|components|] == c; }
      if x in Emitted(components) {
        var d :| d in components && x in d;
        assert d in components + [c];
      }
    }
  }

  lemma PoppedTopological(edges: Edges, s: Search, t: Search, active: set<Node>, node: Node, component: seq<Node>)
    requires Inv(edges, t, active + {node}) && EdgesAbove(edges, s, t, None, Index(t, node))
    requires node in t.indices && s.stack + [node] <= t.stack && forall y :: (node, y) in edges ==> y in t.indices
    requires forall x :: x in active ==> x in s.stack
    requires Lists(component, t.stack[|s.stack|..])
    ensures ReverseTopological(edges, t.components + [component])
  {
    hide Inv, Ordered, Placed, Explored, EdgesAbove, StackLinked, Reaches, Emitted, IsComponent;
    InvParts(edges, t, active + {node});
    var all := t.components + [component];
    EmittedSnoc(t.components, component);
    assert all[..|all|] == all;
    forall i, x, y | 0 <= i < |all| && x in all[i] && (x, y) in edges ensures y in Emitted(all[..i + 1]) {
      if i < |t.components| {
        assert all[..i + 1] == t.components[..i + 1];
        assert x in t.components[i];
      } else {
        EdgeFromAbove(edges, s, t, active, node, x, y);
      }
    }
  }

  lemma PopPlaced(s: Search, t: Search, node: Node, component: seq<Node>)
    requires Ordered(t) && Placed(t) && s.stack + [node] <= t.stack && Lists(component, t.stack[|s.stack|..])
    ensures var u := Pop(t, |s.stack|, component);
      Ordered(u) && Placed(u) && u.stack == s.stack && node !in u.onStack
  {
    hide Emitted, Index, Ordered, Placed, Lists;
    SplitStack(s, t, node);
    PopOrdered(t, |s.stack|, component);
    PopEmits(t, |s.stack|, component);
    TopPopped(t, |s.stack|, component);
  }

  lemma TopPopped(t: Search, k: nat, component: seq<Node>)
    requires k < |t.stack|
    ensures t.stack[k] !in Pop(t, k, component).onStack
  {
    assert t.stack[k..][0] == t.stack[k];
  }

  lemma PopOrdered(t: Search, k: nat, component: seq<Node>)
    requires Ordered(t) && k < |t.stack|
    ensures Ordered(Pop(t, k, component))
  {
    hide Index;
    var u := Pop(t, k, component);
    SameIndices(t, u);
    assert t.stack == t.stack[..k] + t.stack[k..];
    forall x, j | x in u.stack && k <= j < |t.stack| ensures t.stack[j] != x {
      var i :| 0 <= i < k && t.stack[i] == x;
    }
  }

  lemma PopEmits(t: Search, k: nat, component: seq<Node>)
    requires Ordered(t) && Placed(t) && k < |t.stack| && Lists(component, t.stack[k..])
    ensures Placed(Pop(t, k, component))
  {
    hide Emitted, Index;
    EmittedSnoc(t.components, component);
    assert forall x :: x in t.stack[k..] ==> x in t.stack;
    forall i, x | 0 <= i < |t.components| && x in t.components[i] ensures x !in component {
      assert x in Emitted(t.components) by { EmittedHas(t.components, i, x); }
    }
  }

  lemma SameIndices(t: Search, u: Search)
    requires t.indices == u.indices
    ensures forall x :: Index(t, x) == Index(u, x)
  {
  }

  lemma EmittedHas(components: seq<seq<Node>>, i: nat, x: Node)
    requires i < |components| && x in components[i]
    ensures x in Emitted(components)
  {
    assert components[i] in components;
  }

  lemma Closed(edges: Edges, s: Search, t: Search, active: set<Node>, node: Node, outs: seq<Node>, low: nat,
               component: seq<Node>)
    requires Walking(edges, s, t, active, node, outs, |outs|, low) && low == Index(t, node)
    requires Lists(component, t.stack[|s.stack|..])
    ensures |s.stack| <= |t.stack|
    ensures var u := Pop(t, |s.stack|, component); Inv(edges, u, active) && Reported(edges, s, u, node, low)
  {
    hide Inv, Ordered, Placed, EdgesAbove, Reaches, Emitted, Lists, IsComponent, ReverseTopological, LeadsBack, Anchors;
    var u := Pop(t, |s.stack|, component);
    InvParts(edges, s, active);
    InvParts(edges, t, active + {node});
    EdgesAboveAll(edges, s, t, node, outs, low);
    PoppedIsComponent(edges, s, t, active, node, component);
    PoppedTopological(edges, s, t, active, node, component);
    PopPlaced(s, t, node, component);
    AnchorsKept(edges, s, t, active);
    AnchorsSameIndices(edges, t, u, active);
    assert EdgesAbove(edges, s, u, None, low) by { NothingAbove(edges, s, u, low); }
    InvParts(edges, u, active);
  }

  lemma NothingAbove(edges: Edges, s: Search, u: Search, low: nat)
    requires u.stack == s.stack
    ensures EdgesAbove(edges, s, u, None, low)
  {
  }

  lemma AnchorsSameIndices(edges: Edges, t: Search, u: Search, active: set<Node>)
    requires t.indices == u.indices
    ensures forall y, x :: Anchors(edges, t, active, y, x) <==> Anchors(edges, u, active, y, x)
  {
  }

  // ---------- the imperative search ----------

  lemma WalkingParts(edges: Edges, s: Search, t: Search, active: set<Node>, node: Node, outs: seq<Node>, i: nat,
                     low: nat)
    requires Walking(edges, s, t, active, node, outs, i, low)
    ensures Inv(edges, t, active + {node}) && node in t.indices && Index(t, node) == t.indices[node]
    ensures forall x :: x in s.indices ==> x in t.indices
    ensures forall x :: x in outs ==> (node, x) in edges
    ensures forall x, y :: x in active + {node} && y in outs ==> Reaches(edges, x, y)
    ensures forall x :: x in t.indices ==> x in t.onStack || x in Emitted(t.components)
  {
    hide Reaches, Emitted, StackLinked, Complete, Explored, Ordered;
    forall y | y in outs ensures forall x :: x in active + {node} ==> Reaches(edges, x, y) {
      NextReached(edges, s, t, active, node, outs, y);
    }
  }

  lemma StackAbove(edges: Edges, s: Search, t: Search, active: set<Node>, node: Node, outs: seq<Node>, i: nat, low: nat)
    requires Walking(edges, s, t, active, node, outs, i, low)
    ensures |s.stack| < |t.stack| && t.stack[|s.stack|] == node && Distinct(t.stack)
  {
    hide Reaches, Emitted, StackLinked, Complete, Explored, Placed, LowSoFar;
    SplitStack(s, t, node);
  }

  lemma ReportedParts(edges: Edges, s: Search, t: Search, node: Node, low: nat)
    requires Reported(edges, s, t, node, low)
    ensures node in t.indices
    ensures forall x :: x in s.indices ==> x in t.indices && t.indices[x] == s.indices[x]
  {
    hide LeadsBack, EdgesAbove;
    assert forall x :: x in s.indices ==> Index(t, x) == Index(s, x);
  }

  lemma ListsReversed(stack: seq<Node>, k: nat)
    requires k < |stack| && Distinct(stack)
    ensures Lists(Reverse(stack[k..]), stack[k..])
  {
    var above := stack[k..];
    var r := Reverse(above);
    forall x ensures x in r <==> x in above {
      if x in above {
        var i :| 0 <= i < |above| && above[i] == x;
        assert r[|above| - 1 - i] == x;
      }
    }
  }

  lemma NeighborsAreEdges(graph: DirectedGraph, node: Node)
    requires graph.Valid()
    ensures forall y :: (node, y) in graph.EdgeSet() <==> y in graph.Neighbors(node)
    ensures forall y :: y in graph.Neighbors(node) ==> y in graph.nodes
  {
    LinkedIsEdge(graph.outEdges);
    assert forall y :: y in graph.Neighbors(node) ==> Linked(graph.outEdges, node, y);
  }

  ghost predicate InAlphabet(s: seq<Node>) {
    forall i, j :: 0 <= i < j < |s| ==> Alphabetical(s[i], s[j])
  }

  // Sorting names: the same names, in alphabetical order.
  lemma SortedAlphabetically(s: seq<Node>)
    requires Distinct(s)
    ensures var r := Sort(NameLess(), s);
      (forall x :: x in r <==> x in s) && InAlphabet(r)
  {
    hide NameLess, Alphabetical, Sort;
    NameOrders();
    SortSorts(NameLess(), s);
    SortedIsAlphabetical(Sort(NameLess(), s));
  }

  class TarjanState {
    var nextIndex: nat
    var indices: map<Node, nat>
    var lowlink: map<Node, nat>
    var onStack: set<Node>
    var stack: seq<Node>
    var components: seq<seq<Node>>

    constructor ()
      ensures Snapshot() == Search(0, map[], [], {}, []) && lowlink == map[]
    {
      nextIndex, indices, lowlink, onStack, stack, components := 0, map[], map[], {}, [], [];
    }

    function Snapshot(): Search
      reads this
    {
      Search(nextIndex, indices, stack, onStack, components)
    }

    // Visits `node` and everything first discovered from it. `active` is the chain of
    // callers still walking their out-edges.
    method StrongConnect(graph: DirectedGraph, node: Node, ghost active: set<Node>)
      requires graph.Valid() && node in graph.nodes
      requires Inv(graph.EdgeSet(), Snapshot(), active) && node !in indices
      requires forall x :: x in active ==> Reaches(graph.EdgeSet(), x, node)
      requires lowlink.Keys == indices.Keys && indices.Keys <= graph.nodes
      modifies this
      ensures lowlink.Keys == indices.Keys && indices.Keys <= graph.nodes && node in indices
      ensures Inv(graph.EdgeSet(), Snapshot(), active)
      ensures Reported(graph.EdgeSet(), old(Snapshot()), Snapshot(), node, lowlink[node])
      ensures forall x :: x in old(lowlink) ==> x in lowlink && lowlink[x] == old(lowlink)[x]
      decreases graph.nodes - indices.Keys
    {
      hide Inv, Walking, Reported, Reaches, Emitted, Consistent, Min, Index, EdgesOf, Get, Push, Pop, Lists, Distinct;
      ghost var edges, before, lows := graph.EdgeSet(), Snapshot(), lowlink;
      Open(node);
      var outs := graph.Neighbors(node);
      NeighborsAreEdges(graph, node);
      PushStep(edges, before, active, node, outs);

      for i := 0 to |outs|
        invariant node in indices && lowlink.Keys == indices.Keys && indices.Keys <= graph.nodes
        invariant Walking(edges, before, Snapshot(), active, node, outs, i, lowlink[node])
        invariant forall x :: x in lows ==> x in lowlink && lowlink[x] == lows[x]
      {
        var next := outs[i];
        ghost var here := Snapshot();
        WalkingParts(edges, before, here, active, node, outs, i, lowlink[node]);
        if next !in indices {
          ghost var low := lowlink[node];
          StrongConnect(graph, next, active + {node});
          ReportedParts(edges, here, Snapshot(), next, lowlink[next]);
          AfterVisit(edges, before, here, Snapshot(), active, node, outs, i, low, lowlink[next]);
          Lower(node, lowlink[next]);
        } else if next in onStack {
          AfterStacked(edges, before, here, active, node, outs, i, lowlink[node]);
          Lower(node, indices[next]);
        } else {
          AfterEmitted(edges, before, here, active, node, outs, i, lowlink[node]);
        }
      }

      ghost var walked := Snapshot();
      WalkingParts(edges, before, walked, active, node, outs, |outs|, lowlink[node]);
      if lowlink[node] == indices[node] {
        StackAbove(edges, before, walked, active, node, outs, |outs|, lowlink[node]);
        PopComponent(node, |before.stack|);
        ListsReversed(walked.stack, |before.stack|);
        Closed(edges, before, walked, active, node, outs, lowlink[node], Reverse(walked.stack[|before.stack|..]));
      } else {
        Deferred(edges, before, walked, active, node, outs, lowlink[node]);
      }
    }

    // Numbers `node` and puts it on the stack.
    method Open(node: Node)
      modifies this
      ensures Snapshot() == Push(old(Snapshot()), node)
      ensures indices == old(indices)[node := old(nextIndex)] && lowlink == old(lowlink)[node := old(nextIndex)]
    {
      var idx := nextIndex;
      nextIndex := nextIndex + 1;
      indices := indices[node := idx];
      lowlink := lowlink[node := idx];
      stack := stack + [node];
      onStack := onStack + {node};
    }

    // Records `candidate` as the lowlink of `node` if it is smaller.
    method Lower(node: Node, candidate: nat)
      requires node in lowlink
      modifies `lowlink
      ensures lowlink == old(lowlink)[node := Min(old(lowlink)[node], candidate)]
    {
      if candidate < lowlink[node] {
        lowlink := lowlink[node := candidate];
      }
    }

    // Pops down to `node`, which sits at position `depth`, and emits what was popped.
    method PopComponent(node: Node, ghost depth: nat)
      requires depth < |stack| && stack[depth] == node && Distinct(stack)
      modifies `stack, `onStack, `components
      ensures Snapshot() == Pop(old(Snapshot()), depth, Reverse(old(stack)[depth..]))
    {
      ghost var whole, present := stack, onStack;
      var component: seq<Node> := [];
      while true
        invariant depth < |stack| <= |whole| && stack == whole[..|stack|]
        invariant component == Reverse(whole[|stack|..])
        invariant onStack == present - Elements(whole[|stack|..])
        invariant components == old(components)
        decreases |stack|
      {
        var popped := stack[|stack| - 1];
        assert whole[|stack| - 1..] == [popped] + whole[|stack|..];
        stack := stack[..|stack| - 1];
        onStack := onStack - {popped};
        component := component + [popped];
        if popped == node {
          break;
        }
      }
      assert component == Reverse(whole[depth..]);
      components := components + [component];
    }

    method IntoSortedComponents() returns (r: seq<seq<Node>>)
      modifies this
      ensures |components| == |old(components)|
      ensures forall i :: 0 <= i < |components| ==> components[i] == Sort(NameLess(), old(components)[i])
      ensures forall i :: 0 <= i < |components| && Distinct(old(components)[i]) ==> InAlphabet(components[i])
      ensures r == Sort(NamesLess(), components)
    {
      hide Sort, InAlphabet;
      for i := 0 to |components|
        invariant |components| == |old(components)|
        invariant forall j :: 0 <= j < |components| ==>
                    components[j] == if j < i then Sort(NameLess(), old(components)[j]) else old(components)[j]
        invariant forall j :: 0 <= j < i && Distinct(old(components)[j]) ==> InAlphabet(components[j])
      {
        if Distinct(components[i]) { SortedAlphabetically(components[i]); }
        components := components[i := Sort(NameLess(), components[i])];
      }
      r := Sort(NamesLess(), components);
    }
  }

  // ---------- the result ----------

  // The emission order before sorting: a partition of the nodes into the classes of mutual
  // reachability, every edge leading back to the same or an earlier class.
  ghost predicate IsPartition(nodes: set<Node>, edges: Edges, components: seq<seq<Node>>) {
    && Emitted(components) == nodes
    && (forall c :: c in components ==> IsComponent(edges, c))
    && (forall i, j, x :: 0 <= i < j < |components| && x in components[i] ==> x !in components[j])
  }

  // The sorted list of the sorted strongly connected components.
  ghost predicate IsListing(nodes: set<Node>, edges: Edges, r: seq<seq<Node>>) {
    && (forall x :: x in nodes <==> exists c :: c in r && x in c)
    && (forall c :: c in r ==> c != [] && StrictlySorted(NameLess(), c))
    && (forall c, x, y :: c in r && x in c ==> (y in c <==> Mutual(edges, x, y)))
    && StrictlySorted(NamesLess(), r)
  }

  lemma SearchComplete(nodes: set<Node>, edges: Edges, s: Search)
    requires Inv(edges, s, {}) && s.indices.Keys == nodes
    ensures s.stack == [] && IsPartition(nodes, edges, s.components) && ReverseTopological(edges, s.components)
  {
    hide Inv, Ordered, Explored, Reaches, IsComponent, Emitted, ReverseTopological;
    InvParts(edges, s, {});
    assert s.stack == [] by { EmptyStack(edges, s); }
    assert forall x :: x in s.onStack ==> x in s.stack by { EmptyStack(edges, s); }
  }

  lemma EmptyStack(edges: Edges, s: Search)
    requires Ordered(s) && StackLinked(edges, s, {})
    ensures s.stack == [] && s.onStack == {}
  {
    hide Reaches;
    NonEmptyHasMember(s.stack);
  }

  lemma SortedComponent(edges: Edges, c: seq<Node>)
    requires IsComponent(edges, c)
    ensures var d := Sort(NameLess(), c); d != [] && StrictlySorted(NameLess(), d) && forall x :: x in d <==> x in c
  {
    hide Mutual, StrictTotal, Lex, LexLess, StrictlySorted, Sort;
    NameOrders();
    SortSorts(NameLess(), c);
    NonEmptyHasMember(c);
    NonEmptyHasMember(Sort(NameLess(), c));
  }

  lemma SortedPartition(nodes: set<Node>, edges: Edges, emitted: seq<seq<Node>>, sorted: seq<seq<Node>>)
    requires IsPartition(nodes, edges, emitted) && |sorted| == |emitted|
    requires forall i :: 0 <= i < |sorted| ==> sorted[i] == Sort(NameLess(), emitted[i])
    ensures IsListing(nodes, edges, Sort(NamesLess(), sorted))
  {
    hide Mutual, StrictTotal, Lex, LexLess, StrictlySorted, Sort;
    var r := Sort(NamesLess(), sorted);
    NameOrders();
    forall i | 0 <= i < |sorted|
      ensures sorted[i] != [] && StrictlySorted(NameLess(), sorted[i])
      ensures forall x :: x in sorted[i] <==> x in emitted[i]
    {
      SortedComponent(edges, emitted[i]);
    }
    forall i, j | 0 <= i < j < |sorted| ensures sorted[i] != sorted[j] {
      assert sorted[i][0] in emitted[i];
    }
    SortSorts(NamesLess(), sorted);
    SameElements(r, sorted);
    forall x ensures x in nodes <==> exists c :: c in r && x in c {
      if x in nodes {
        var d :| d in emitted && x in d;
        var i :| 0 <= i < |emitted| && emitted[i] == d;
        assert sorted[i] in r && x in sorted[i];
      }
      if c :| c in r && x in c {
        var i :| 0 <= i < |sorted| && sorted[i] == c;
        EmittedHas(emitted, i, x);
      }
    }
    forall c, x, y | c in r && x in c ensures y in c <==> Mutual(edges, x, y) {
      var i :| 0 <= i < |sorted| && sorted[i] == c;
      assert emitted[i] in emitted;
    }
    forall c | c in r ensures c != [] && StrictlySorted(NameLess(), c) {
      var i :| 0 <= i < |sorted| && sorted[i] == c;
    }
  }

  // Every component is in alphabetical order, and so are the components by their first members.
  ghost predicate InAlphabeticalOrder(r: seq<seq<Node>>) {
    && (forall c :: c in r ==> InAlphabet(c))
    && (forall i :: 0 <= i < |r| ==> r[i] != [])
    && (forall i, j :: 0 <= i < j < |r| ==> Alphabetical(r[i][0], r[j][0]))
  }

  lemma SortedIsAlphabetical(c: seq<Node>)
    requires StrictlySorted(NameLess(), c)
    ensures InAlphabet(c)
  {
    hide NameLess, Alphabetical;
    forall i, j | 0 <= i < j < |c| ensures Alphabetical(c[i], c[j]) {
      NameLessMeans(c[i], c[j]);
    }
  }

  // Components with the same first member are the same.
  lemma SameFirst(nodes: set<Node>, edges: Edges, r: seq<seq<Node>>, c: seq<Node>, d: seq<Node>)
    requires IsListing(nodes, edges, r) && c in r && d in r && c[0] == d[0]
    ensures c == d
  {
    hide Mutual, NameLess;
    NameOrders();
    assert c[0] in c && d[0] in d;
    forall x ensures x in c <==> x in d {
      assert x in c <==> Mutual(edges, c[0], x);
      assert x in d <==> Mutual(edges, c[0], x);
    }
    SortedIsCanonical(NameLess(), c, d);
  }

  lemma ListingInOrder(nodes: set<Node>, edges: Edges, r: seq<seq<Node>>)
    requires IsListing(nodes, edges, r)
    ensures InAlphabeticalOrder(r)
  {
    hide Mutual, NameLess, NamesLess, Alphabetical;
    forall c | c in r ensures InAlphabet(c) {
      SortedIsAlphabetical(c);
    }
    forall i | 0 <= i < |r| ensures r[i] in r && r[i] != [] {}
    forall i, j | 0 <= i < j < |r| ensures Alphabetical(r[i][0], r[j][0]) {
      NamesLessMeans(r[i], r[j]);
      assert NamesLess()(r[i], r[j]);
      NameOrders();
      if r[i][0] == r[j][0] {
        SameFirst(nodes, edges, r, r[i], r[j]);
      }
      FirstDecides(r[i], r[j]);
    }
  }

  // Lists of names with different first members are ordered by these.
  lemma FirstDecides(a: seq<Node>, b: seq<Node>)
    requires NamesLess()(a, b) && a != [] && b != [] && (a[0] == b[0] ==> a == b)
    ensures Alphabetical(a[0], b[0])
  {
    hide NamesLess, Alphabetical;
    NamesLessMeans(a, b);
    NameOrders();
    assert a != b by { StrictHere(a, b); }
    var k :| 0 <= k < |a| && k < |b| && a[..k] == b[..k] && Alphabetical(a[k], b[k]);
    SameHead(a, b, k);
  }

  lemma StrictHere(a: seq<Node>, b: seq<Node>)
    requires NamesLess()(a, b)
    ensures a != b
  {
    NameOrders();
  }

  method StronglyConnectedComponents(graph: DirectedGraph) returns (r: seq<seq<Node>>, ghost emitted: seq<seq<Node>>)
    requires graph.Valid()
    ensures IsListing(graph.nodes, graph.EdgeSet(), r)
    ensures IsPartition(graph.nodes, graph.EdgeSet(), emitted) && ReverseTopological(graph.EdgeSet(), emitted)
    ensures |r| == |emitted| && InAlphabeticalOrder(r)
  {
    hide InAlphabeticalOrder;
    hide Inv, Reported, Reaches, Emitted, Consistent, IsListing, IsPartition, ReverseTopological;
    ghost var edges := graph.EdgeSet();
    var state := new TarjanState();
    InvStart(edges);
    NameOrders();
    var remaining := graph.nodes;
    while remaining != {}
      invariant graph.Valid() && edges == graph.EdgeSet()
      invariant remaining <= graph.nodes
      invariant graph.nodes - remaining <= state.indices.Keys <= graph.nodes
      invariant state.lowlink.Keys == state.indices.Keys
      invariant Inv(edges, state.Snapshot(), {})
    {
      ghost var least := LeastExists(NameLess(), remaining);
      var node :| node in remaining && forall x :: x in remaining && x != node ==> NameLess()(node, x);
      if node !in state.indices {
        ghost var before := state.Snapshot();
        state.StrongConnect(graph, node, {});
        ReportedParts(edges, before, state.Snapshot(), node, state.lowlink[node]);
      }
      remaining := remaining - {node};
    }
    emitted := state.components;
    SearchComplete(graph.nodes, edges, state.Snapshot());
    r := state.IntoSortedComponents();
    SortedPartition(graph.nodes, edges, emitted, state.components);
    ListingInOrder(graph.nodes, edges, r);
    SameElements(r, state.components);
  }

  lemma InvStart(edges: Edges)
    ensures Inv(edges, Search(0, map[], [], {}, []), {})
  {
  }

  // ---------- canonicity ----------

  lemma ListingMember(nodes: set<Node>, edges: Edges, r1: seq<seq<Node>>, r2: seq<seq<Node>>, c: seq<Node>)
    requires IsListing(nodes, edges, r1) && IsListing(nodes, edges, r2) && c in r1
    ensures c in r2
  {
    hide Reaches;
    NameOrders();
    assert c[0] in c && c[0] in nodes;
    var d :| d in r2 && c[0] in d;
    forall x ensures x in c <==> x in d {
      assert x in c <==> Mutual(edges, c[0], x);
    }
    SortedIsCanonical(NameLess(), c, d);
  }

  // The node set and the edge set alone determine the output: insertion order does not matter.
  lemma ListingIsCanonical(nodes: set<Node>, edges: Edges, r1: seq<seq<Node>>, r2: seq<seq<Node>>)
    requires IsListing(nodes, edges, r1) && IsListing(nodes, edges, r2)
    ensures r1 == r2
  {
    hide Reaches;
    NameOrders();
    forall c ensures c in r1 <==> c in r2 {
      if c in r1 { ListingMember(nodes, edges, r1, r2, c); }
      if c in r2 { ListingMember(nodes, edges, r2, r1, c); }
    }
    SortedIsCanonical(NamesLess(), r1, r2);
  }
}
