// The typed edge graph of src/atlas.rs: deduplicated union, undirected neighbourhood,
// roots, and the projection of its directed edges into the adjacency store.
module Atlas {
  import opened Ordering
  import opened Reachability
  import opened DirectedGraphs

  datatype Kind = Kind(name: string, directed: bool)

  datatype Edge = Edge(kind: Kind, lifecycle: string, first: Node, second: Node)

  datatype Key = Key(kind: Kind, lifecycle: string, participants: seq<Node>)

  // Symmetric edges canonicalise to sorted participants; directed edges keep their order.
  function CanonicalKey(e: Edge): Key {
    Key(e.kind, e.lifecycle,
        if e.kind.directed || !NameLess()(e.second, e.first) then [e.first, e.second] else [e.second, e.first])
  }

  ghost function DirectedEdges(edges: seq<Edge>): Edges {
    set e | e in edges && e.kind.directed :: (e.first, e.second)
  }

  // Every edge can be walked both ways.
  ghost function UndirectedEdges(edges: seq<Edge>): Edges {
    (set e | e in edges :: (e.first, e.second)) + (set e | e in edges :: (e.second, e.first))
  }

  // ---------- the union of the repositories' edge files ----------

  function Flatten(files: seq<seq<Edge>>): seq<Edge> {
    if files == [] then [] else Flatten(files[..|files| - 1]) + files[|files| - 1]
  }

  ghost function Keys(edges: seq<Edge>): set<Key> {
    set e | e in edges :: CanonicalKey(e)
  }

  // The sublist holding the first edge of every key.
  ghost function FirstSeen(edges: seq<Edge>): seq<Edge> {
    if edges == [] then []
    else
      var e, before := edges[|edges| - 1], edges[..|edges| - 1];
      if CanonicalKey(e) in Keys(before) then FirstSeen(before) else FirstSeen(before) + [e]
  }

  lemma KeysSnoc(edges: seq<Edge>, e: Edge)
    ensures Keys(edges + [e]) == Keys(edges) + {CanonicalKey(e)}
  {
    assert e in edges + [e];
    forall d ensures d in edges + [e] <==> d in edges || d == e {}
  }

  lemma FirstSeenSnoc(edges: seq<Edge>, e: Edge)
    ensures Keys(edges + [e]) == Keys(edges) + {CanonicalKey(e)}
    ensures FirstSeen(edges + [e]) ==
      if CanonicalKey(e) in Keys(edges) then FirstSeen(edges) else FirstSeen(edges) + [e]
  {
    KeysSnoc(edges, e);
    assert (edges + [e])[..|edges|] == edges;
  }

  lemma NothingSeen(edges: seq<Edge>)
    requires edges == []
    ensures Keys(edges) == {} && FirstSeen(edges) == []
  {
  }

  method FromCatalog(files: seq<seq<Edge>>) returns (edges: seq<Edge>)
    ensures edges == FirstSeen(Flatten(files)) && IsUnion(Flatten(files), edges)
  {
    hide IsUnion;
    hide Keys, FirstSeen, CanonicalKey;
    NothingSeen([]);
    var seenKeys: set<Key> := {};
    edges := [];
    for i := 0 to |files|
      invariant seenKeys == Keys(Flatten(files[..i])) && edges == FirstSeen(Flatten(files[..i]))
    {
      var file := files[i];
      ghost var before := Flatten(files[..i]);
      assert before + file[..0] == before;
      for j := 0 to |file|
        invariant seenKeys == Keys(before + file[..j]) && edges == FirstSeen(before + file[..j])
      {
        var edge := file[j];
        var key := CanonicalKey(edge);
        assert before + file[..j + 1] == before + file[..j] + [edge];
        FirstSeenSnoc(before + file[..j], edge);
        if key !in seenKeys {
          seenKeys := seenKeys + {key};
          edges := edges + [edge];
        }
      }
      assert file[..|file|] == file;
      assert files[..i + 1][..i] == files[..i];
    }
    assert files[..|files|] == files;
    FirstSeenIsUnion(Flatten(files));
  }

  // Deduplication keeps each key exactly once, and keeps the graphs the edges stand for.
  lemma {:induction false} FirstSeenKeys(edges: seq<Edge>)
    ensures Keys(FirstSeen(edges)) == Keys(edges)
    ensures forall e :: e in FirstSeen(edges) ==> e in edges
    ensures forall i, j :: 0 <= i < j < |FirstSeen(edges)| ==>
              CanonicalKey(FirstSeen(edges)[i]) != CanonicalKey(FirstSeen(edges)[j])
  {
    if edges != [] {
      var e, before := edges[|edges| - 1], edges[..|edges| - 1];
      assert edges == before + [e];
      FirstSeenKeys(before);
      KeysSnoc(before, e);
      KeysSnoc(FirstSeen(before), e);
      forall d | d in FirstSeen(before) ensures CanonicalKey(d) in Keys(before) {}
    }
  }

  // The two edges record the same thing: a symmetric one may name its participants either way round.
  predicate SameRecord(d: Edge, e: Edge) {
    && d.kind == e.kind && d.lifecycle == e.lifecycle
    && ((d.first, d.second) == (e.first, e.second) ||
        (!e.kind.directed && (d.first, d.second) == (e.second, e.first)))
  }

  lemma SameKeyIff(d: Edge, e: Edge)
    ensures CanonicalKey(d) == CanonicalKey(e) <==> SameRecord(d, e)
  {
    hide NameLess;
    NameOrders();
    var p, q := CanonicalKey(d).participants, CanonicalKey(e).participants;
    assert p == q <==> p[0] == q[0] && p[1] == q[1];
  }

  // `d` was recorded at a time when nothing like `e` had been.
  ghost predicate RecordedBefore(edges: seq<Edge>, d: Edge, e: Edge) {
    exists k :: 0 <= k < |edges| && edges[k] == d && forall m :: 0 <= m <= k ==> !SameRecord(edges[m], e)
  }

  // `d` was recorded, and nothing like it before.
  ghost predicate FirstRecord(edges: seq<Edge>, d: Edge) {
    exists k :: 0 <= k < |edges| && edges[k] == d && forall m :: 0 <= m < k ==> !SameRecord(edges[m], d)
  }

  lemma RecordedSnoc(edges: seq<Edge>, last: Edge)
    ensures forall d, e :: RecordedBefore(edges, d, e) ==> RecordedBefore(edges + [last], d, e)
    ensures forall d :: FirstRecord(edges, d) ==> FirstRecord(edges + [last], d)
    ensures (forall m :: 0 <= m < |edges| ==> !SameRecord(edges[m], last)) ==>
      FirstRecord(edges + [last], last) && forall d :: FirstRecord(edges, d) ==> RecordedBefore(edges + [last], d, last)
  {
    hide SameRecord;
    var all := edges + [last];
    forall d, e | RecordedBefore(edges, d, e) ensures RecordedBefore(all, d, e) {
      var k :| 0 <= k < |edges| && edges[k] == d && forall m :: 0 <= m <= k ==> !SameRecord(edges[m], e);
      assert all[k] == d;
    }
    forall d | FirstRecord(edges, d) ensures FirstRecord(all, d) {
      var k :| 0 <= k < |edges| && edges[k] == d && forall m :: 0 <= m < k ==> !SameRecord(edges[m], d);
      assert all[k] == d;
    }
    if forall m :: 0 <= m < |edges| ==> !SameRecord(edges[m], last) {
      assert all[|edges|] == last;
      forall d | FirstRecord(edges, d) ensures RecordedBefore(all, d, last) {
        var k :| 0 <= k < |edges| && edges[k] == d;
        assert all[k] == d;
      }
    }
  }

  // The union: something like every record, the first of its like, in the order of these first records.
  ghost predicate IsUnion(edges: seq<Edge>, r: seq<Edge>) {
    && (forall e :: e in edges ==> exists d :: d in r && SameRecord(d, e))
    && (forall i :: 0 <= i < |r| ==> FirstRecord(edges, r[i]))
    && (forall i, j :: 0 <= i < j < |r| ==> RecordedBefore(edges, r[i], r[j]))
  }

  lemma {:induction false} FirstSeenIsUnion(edges: seq<Edge>)
    ensures IsUnion(edges, FirstSeen(edges))
  {
    hide CanonicalKey, RecordedBefore, FirstRecord, SameRecord;
    if edges != [] {
      var last, before := edges[|edges| - 1], edges[..|edges| - 1];
      var r, q := FirstSeen(edges), FirstSeen(before);
      assert edges == before + [last];
      FirstSeenIsUnion(before);
      RecordedSnoc(before, last);
      FirstSeenKeys(edges);
      forall e | e in edges ensures exists d :: d in r && SameRecord(d, e) {
        var d := Represented(edges, e);
        SameKeyIff(d, e);
      }
      if CanonicalKey(last) !in Keys(before) {
        forall m | 0 <= m < |before| ensures !SameRecord(before[m], last) {
          SameKeyIff(before[m], last);
          assert before[m] in before;
        }
      }
    }
  }

  // The files one after the other.
  lemma {:induction false} FlattenConcat(a: seq<seq<Edge>>, b: seq<seq<Edge>>)
    ensures Flatten(a + b) == Flatten(a) + Flatten(b)
    ensures |b| == 1 ==> Flatten(b) == b[0]
  {
    if b == [] {
      assert a + b == a;
    } else {
      var n := |b| - 1;
      FlattenConcat(a, b[..n]);
      assert (a + b)[..|a + b| - 1] == a + b[..n];
      assert Flatten(a) + (Flatten(b[..n]) + b[n]) == Flatten(a) + Flatten(b[..n]) + b[n];
      assert n == 0 ==> b[..n] == [] && [] + b[n] == b[n];
    }
  }

  lemma Represented(edges: seq<Edge>, e: Edge) returns (d: Edge)
    requires e in edges
    ensures d in FirstSeen(edges) && CanonicalKey(d) == CanonicalKey(e)
  {
    FirstSeenKeys(edges);
    assert CanonicalKey(e) in Keys(FirstSeen(edges));
    d :| d in FirstSeen(edges) && CanonicalKey(d) == CanonicalKey(e);
  }

  lemma FirstSeenMeaning(edges: seq<Edge>)
    ensures DirectedEdges(FirstSeen(edges)) == DirectedEdges(edges)
    ensures UndirectedEdges(FirstSeen(edges)) == UndirectedEdges(edges)
  {
    hide FirstSeen, CanonicalKey, Keys;
    FirstSeenKeys(edges);
    forall e | e in edges
      ensures e.kind.directed ==> (e.first, e.second) in DirectedEdges(FirstSeen(edges))
      ensures (e.first, e.second) in UndirectedEdges(FirstSeen(edges))
      ensures (e.second, e.first) in UndirectedEdges(FirstSeen(edges))
    {
      var d := Represented(edges, e);
      SameKeyIff(d, e);
    }
  }

  // ---------- undirected adjacency ----------

  // Both endpoints of every edge gain each other as peers, in first-seen order.
  ghost function AdjacencyOf(edges: seq<Edge>): Adjacency {
    if edges == [] then map[]
    else
      var e := edges[|edges| - 1];
      PushUnique(PushUnique(AdjacencyOf(edges[..|edges| - 1]), e.first, e.second), e.second, e.first)
  }

  method BuildAdjacency(edges: seq<Edge>) returns (lists: Adjacency)
    ensures lists == AdjacencyOf(edges) && forall n :: PeersListed(edges, n, Get(lists, n))
  {
    hide PeersListed;
    lists := map[];
    for i := 0 to |edges|
      invariant lists == AdjacencyOf(edges[..i])
    {
      var a, b := edges[i].first, edges[i].second;
      lists := PushUnique(lists, a, b);
      lists := PushUnique(lists, b, a);
      assert edges[..i + 1][..i] == edges[..i];
    }
    assert edges[..|edges|] == edges;
    forall n { AdjacencyListed(edges, n); }
  }

  lemma {:induction false} AdjacencyMeaning(edges: seq<Edge>)
    ensures forall a, b :: Linked(AdjacencyOf(edges), a, b) <==> (a, b) in UndirectedEdges(edges)
    ensures forall n :: Distinct(Get(AdjacencyOf(edges), n))
  {
    hide Linked, UndirectedEdges, PushUnique, Distinct;
    if edges == [] {
      NoLinks(edges);
    } else {
      var e, before := edges[|edges| - 1], edges[..|edges| - 1];
      AdjacencyMeaning(before);
      PushLinks(AdjacencyOf(before), e.first, e.second);
      PushLinks(PushUnique(AdjacencyOf(before), e.first, e.second), e.second, e.first);
      UndirectedSnoc(before, e);
      assert edges == before + [e];
    }
  }

  lemma NoLinks(edges: seq<Edge>)
    requires edges == []
    ensures forall a, b :: Linked(map[], a, b) <==> (a, b) in UndirectedEdges(edges)
    ensures forall n :: Distinct(Get(map[], n))
  {
  }

  lemma UndirectedSnoc(edges: seq<Edge>, e: Edge)
    ensures UndirectedEdges(edges + [e]) == UndirectedEdges(edges) + {(e.first, e.second), (e.second, e.first)}
  {
    forall d ensures d in edges + [e] <==> d in edges || d == e {
      assert (edges + [e])[|edges|] == e;
    }
  }

  // The edge joins the two, in either direction.
  predicate Touches(e: Edge, n: Node, x: Node) {
    (e.first == n && e.second == x) || (e.first == x && e.second == n)
  }

  // The first edge that joins `n` and `x` was recorded before any that joins `n` and `y`.
  ghost predicate JoinedBefore(edges: seq<Edge>, n: Node, x: Node, y: Node) {
    exists i :: 0 <= i < |edges| && Touches(edges[i], n, x) && forall j :: 0 <= j <= i ==> !Touches(edges[j], n, y)
  }

  ghost predicate PeersListed(edges: seq<Edge>, n: Node, l: seq<Node>) {
    && (forall x :: x in l <==> exists e :: e in edges && Touches(e, n, x))
    && (forall i, j :: 0 <= i < j < |l| ==> JoinedBefore(edges, n, l[i], l[j]))
  }

  // One more edge appends at most one peer to the list of a node.
  lemma PushesAt(lists: Adjacency, e: Edge, n: Node)
    ensures var l, r := Get(lists, n), Get(PushUnique(PushUnique(lists, e.first, e.second), e.second, e.first), n);
      && (forall x :: Touches(e, n, x) ==> x in r)
      && (r == l || (|r| == |l| + 1 && r[..|l|] == l && Touches(e, n, r[|l|]) && r[|l|] !in l))
  {
  }

  lemma JoinedBeforeGrows(edges: seq<Edge>, e: Edge, n: Node, x: Node, y: Node)
    ensures JoinedBefore(edges, n, x, y) ==> JoinedBefore(edges + [e], n, x, y)
    ensures (exists d :: d in edges && Touches(d, n, x)) && (forall d :: d in edges ==> !Touches(d, n, y)) ==>
      JoinedBefore(edges + [e], n, x, y)
  {
    hide Touches;
    var grown := edges + [e];
    if i :| 0 <= i < |edges| && Touches(edges[i], n, x) && forall j :: 0 <= j <= i ==> !Touches(edges[j], n, y) {
      assert grown[i] == edges[i];
    }
    if d :| d in edges && Touches(d, n, x) && forall d :: d in edges ==> !Touches(d, n, y) {
      var i :| 0 <= i < |edges| && edges[i] == d;
      assert grown[i] == d && forall j :: 0 <= j <= i ==> grown[j] == edges[j] && edges[j] in edges;
    }
  }

  lemma PeersGrow(edges: seq<Edge>, e: Edge, n: Node, l: seq<Node>, r: seq<Node>)
    requires PeersListed(edges, n, l) && forall x :: Touches(e, n, x) ==> x in r
    requires r == l || (|r| == |l| + 1 && r[..|l|] == l && Touches(e, n, r[|l|]) && r[|l|] !in l)
    ensures PeersListed(edges + [e], n, r)
  {
    hide JoinedBefore, Touches;
    assert forall d :: d in edges + [e] <==> d in edges || d == e;
    assert forall i :: 0 <= i < |l| ==> r[i] == r[..|l|][i] == l[i];
    assert forall x :: x in r <==> x in l || (|r| > |l| && x == r[|l|]);
    forall i, j | 0 <= i < j < |r| ensures JoinedBefore(edges + [e], n, r[i], r[j]) {
      assert l[i] in l;
      JoinedBeforeGrows(edges, e, n, r[i], r[j]);
    }
  }

  lemma {:induction false} AdjacencyListed(edges: seq<Edge>, n: Node)
    ensures PeersListed(edges, n, Get(AdjacencyOf(edges), n))
  {
    hide PushUnique, PeersListed, Touches, Get;
    if edges == [] {
      NoPeers(edges, n);
    } else {
      var e, before := edges[|edges| - 1], edges[..|edges| - 1];
      AdjacencyListed(before, n);
      PushesAt(AdjacencyOf(before), e, n);
      PeersGrow(before, e, n, Get(AdjacencyOf(before), n), Get(AdjacencyOf(edges), n));
      assert edges == before + [e];
    }
  }

  lemma NoPeers(edges: seq<Edge>, n: Node)
    requires edges == []
    ensures PeersListed(edges, n, Get(map[], n))
  {
  }

  // The peers of a node are those an edge joins it to, each once, in the order of the first such edges.
  lemma PeersInOrder(edges: seq<Edge>, n: Node)
    ensures var l := Get(AdjacencyOf(edges), n);
      && Distinct(l) && (forall x :: x in l <==> exists e :: e in edges && Touches(e, n, x))
      && (forall i, j :: 0 <= i < |l| && 0 <= j < |l| ==> (i < j <==> JoinedBefore(edges, n, l[i], l[j])))
  {
    hide JoinedBefore, AdjacencyOf, Touches;
    var l := Get(AdjacencyOf(edges), n);
    AdjacencyListed(edges, n);
    AdjacencyMeaning(edges);
    forall i, j | 0 <= j <= i < |l| ensures !JoinedBefore(edges, n, l[i], l[j]) {
      JoinedAsymmetric(edges, n, l[j], l[i]);
    }
  }

  lemma JoinedAsymmetric(edges: seq<Edge>, n: Node, x: Node, y: Node)
    ensures !(JoinedBefore(edges, n, x, y) && JoinedBefore(edges, n, y, x))
  {
  }

  // ---------- the neighbourhood, level by level ----------

  // The peers not seen before, in list order.
  ghost function Fresh(peers: seq<Node>, seen: set<Node>): seq<Node> {
    if peers == [] then []
    else if peers[0] in seen then Fresh(peers[1..], seen)
    else [peers[0]] + Fresh(peers[1..], seen + {peers[0]})
  }

  // The next level: the newly peers of each frontier node in turn.
  ghost function Expand(lists: Adjacency, frontier: seq<Node>, seen: set<Node>): seq<Node> {
    if frontier == [] then []
    else
      var newly := Fresh(Get(lists, frontier[0]), seen);
      newly + Expand(lists, frontier[1..], seen + Elements(newly))
  }

  ghost function Tag(nodes: seq<Node>, hops: nat): (r: seq<(Node, nat)>)
    ensures |r| == |nodes| && forall i :: 0 <= i < |nodes| ==> r[i] == (nodes[i], hops)
  {
    seq(|nodes|, i requires 0 <= i < |nodes| => (nodes[i], hops))
  }

  datatype Sweep = Sweep(level: seq<Node>, seen: set<Node>, order: seq<(Node, nat)>)

  ghost function SweepTo(lists: Adjacency, start: Node, k: nat): Sweep {
    if k == 0 then Sweep([start], {start}, [(start, 0)])
    else
      var s := SweepTo(lists, start, k - 1);
      var next := Expand(lists, s.level, s.seen);
      Sweep(next, s.seen + Elements(next), s.order + Tag(next, k))
  }

  lemma {:induction false} FreshMembers(peers: seq<Node>, seen: set<Node>)
    ensures Distinct(Fresh(peers, seen))
    ensures forall x :: x in Fresh(peers, seen) <==> x in peers && x !in seen
  {
    if peers != [] {
      FreshMembers(peers[1..], seen);
      FreshMembers(peers[1..], seen + {peers[0]});
      assert forall x :: x in peers <==> x == peers[0] || x in peers[1..];
    }
  }

  lemma {:induction false} ExpandMembers(lists: Adjacency, frontier: seq<Node>, seen: set<Node>)
    ensures Distinct(Expand(lists, frontier, seen))
    ensures forall x :: x in Expand(lists, frontier, seen) <==>
      x !in seen && exists y :: y in frontier && Linked(lists, y, x)
  {
    if frontier != [] {
      var y := frontier[0];
      var newly := Fresh(Get(lists, y), seen);
      var rest := Expand(lists, frontier[1..], seen + Elements(newly));
      FreshMembers(Get(lists, y), seen);
      ExpandMembers(lists, frontier[1..], seen + Elements(newly));
      forall i, j | 0 <= i < |newly| && 0 <= j < |rest| ensures newly[i] != rest[j] {
        assert newly[i] in newly && rest[j] in rest;
      }
      forall x ensures x in newly + rest <==> x !in seen && exists z :: z in frontier && Linked(lists, z, x) {
        assert x in newly <==> x !in seen && Linked(lists, y, x);
        if z :| z in frontier && Linked(lists, z, x) && z != y {
          assert z in frontier[1..];
        }
        if z :| z in frontier[1..] && Linked(lists, z, x) {
          assert z in frontier;
        }
      }
    }
  }

  // The breadth-first loop part-way through level `h`: `rest` is still queued, `found` is
  // what the part already expanded has added to the next level.
  ghost predicate Sweeping(lists: Adjacency, start: Node, depth: nat, h: nat, rest: seq<Node>, found: seq<Node>,
                           visited: set<Node>, order: seq<(Node, nat)>) {
    var s := SweepTo(lists, start, h);
    && h <= depth
    && visited == s.seen + Elements(found)
    && order == s.order + Tag(found, h + 1)
    && (if h == depth then found == [] else Expand(lists, s.level, s.seen) == found + Expand(lists, rest, visited))
  }

  lemma LevelDone(lists: Adjacency, start: Node, depth: nat, h: nat, found: seq<Node>, visited: set<Node>,
                  order: seq<(Node, nat)>)
    requires Sweeping(lists, start, depth, h, [], found, visited, order) && found != []
    ensures Sweeping(lists, start, depth, h + 1, found, [], visited, order)
  {
    var s := SweepTo(lists, start, h + 1);
    assert found + [] == found == s.level;
    assert order + Tag([], h + 2) == order && [] + Expand(lists, found, visited) == Expand(lists, found, visited);
    assert visited + Elements([]) == visited;
  }

  lemma HeadExpanded(lists: Adjacency, start: Node, depth: nat, h: nat, rest: seq<Node>, found: seq<Node>,
                     visited: set<Node>, order: seq<(Node, nat)>)
    requires Sweeping(lists, start, depth, h, rest, found, visited, order) && h < depth && rest != []
    ensures var newly := Fresh(Get(lists, rest[0]), visited);
      Sweeping(lists, start, depth, h, rest[1..], found + newly, visited + Elements(newly), order + Tag(newly, h + 1))
  {
    hide SweepTo, Elements, Fresh, Get;
    var newly := Fresh(Get(lists, rest[0]), visited);
    assert Expand(lists, rest, visited) == newly + Expand(lists, rest[1..], visited + Elements(newly));
    assert found + (newly + Expand(lists, rest[1..], visited + Elements(newly)))
        == found + newly + Expand(lists, rest[1..], visited + Elements(newly));
    assert Tag(found, h + 1) + Tag(newly, h + 1) == Tag(found + newly, h + 1);
    ElementsConcat(found, newly);
  }

  // Once a level is empty, all later ones are.
  lemma {:induction false} SweepStalls(lists: Adjacency, start: Node, h: nat, depth: nat)
    requires h < depth
    requires Expand(lists, SweepTo(lists, start, h).level, SweepTo(lists, start, h).seen) == []
    ensures SweepTo(lists, start, depth).order == SweepTo(lists, start, h).order
    ensures SweepTo(lists, start, depth).level == []
    decreases depth - h
  {
    var s, t := SweepTo(lists, start, h), SweepTo(lists, start, h + 1);
    assert t.level == [] && t.order == s.order + [];
    if h + 1 < depth {
      SweepStalls(lists, start, h + 1, depth);
    }
  }

  lemma SweepFinished(lists: Adjacency, start: Node, depth: nat, h: nat, visited: set<Node>, order: seq<(Node, nat)>)
    requires Sweeping(lists, start, depth, h, [], [], visited, order)
    ensures order == SweepTo(lists, start, depth).order
  {
    assert order + Tag([], h + 1) == order;
    if h < depth {
      SweepStalls(lists, start, h, depth);
    }
  }

  lemma FreshStep(peers: seq<Node>, i: nat, seen: set<Node>)
    requires i < |peers|
    ensures Fresh(peers[i..], seen) ==
            if peers[i] in seen then Fresh(peers[i + 1..], seen)
            else [peers[i]] + Fresh(peers[i + 1..], seen + {peers[i]})
  {
    assert peers[i..][1..] == peers[i + 1..];
  }

  lemma FreshNone(peers: seq<Node>, seen: set<Node>)
    requires peers == []
    ensures Fresh(peers, seen) == []
  {
  }

  lemma TagConcat(a: seq<Node>, b: seq<Node>, hops: nat)
    ensures Tag(a + b, hops) == Tag(a, hops) + Tag(b, hops)
    ensures |b| == 1 ==> Tag(b, hops) == [(b[0], hops)]
    ensures |a| == 1 ==> Tag(a, hops) == [(a[0], hops)]
    ensures b == [] ==> Tag(b, hops) == []
  {
  }

  // The queue holds the rest of one level, then what was found of the next.
  ghost function Queued(rest: seq<Node>, found: seq<Node>, h: nat): seq<(Node, nat)> {
    Tag(rest, h) + Tag(found, h + 1)
  }

  lemma QueuedHead(rest: seq<Node>, found: seq<Node>, h: nat)
    ensures Queued(rest, found, h) == [] <==> rest == [] && found == []
    ensures rest == [] ==> Queued(rest, found, h) == Queued(found, [], h + 1)
    ensures rest != [] ==>
      Queued(rest, found, h)[0] == (rest[0], h) && Queued(rest, found, h)[1..] == Queued(rest[1..], found, h)
  {
  }

  lemma QueuedMore(rest: seq<Node>, found: seq<Node>, newly: seq<Node>, h: nat)
    ensures Queued(rest, found + newly, h) == Queued(rest, found, h) + Tag(newly, h + 1)
  {
    TagConcat(found, newly, h + 1);
  }

  // The body of the loop: queue and list every peer not visited before.
  method VisitPeers(peers: seq<Node>, hops: nat, seen: set<Node>, queued: seq<(Node, nat)>, listed: seq<(Node, nat)>)
    returns (visited: set<Node>, queue: seq<(Node, nat)>, order: seq<(Node, nat)>)
    ensures visited == seen + Elements(Fresh(peers, seen))
    ensures queue == queued + Tag(Fresh(peers, seen), hops + 1)
    ensures order == listed + Tag(Fresh(peers, seen), hops + 1)
  {
    hide Fresh, Tag, Elements;
    visited, queue, order := seen, queued, listed;
    ghost var newly: seq<Node> := [];
    ElementsConcat(newly, newly);
    TagConcat(newly, newly, hops + 1);
    for i := 0 to |peers|
      invariant visited == seen + Elements(newly)
      invariant Fresh(peers, seen) == newly + Fresh(peers[i..], visited)
      invariant queue == queued + Tag(newly, hops + 1) && order == listed + Tag(newly, hops + 1)
    {
      var peer := peers[i];
      FreshStep(peers, i, visited);
      if peer !in visited {
        visited := visited + {peer};
        queue := queue + [(peer, hops + 1)];
        order := order + [(peer, hops + 1)];
        TagConcat(newly, [peer], hops + 1);
        ElementsConcat(newly, [peer]);
        newly := newly + [peer];
      }
    }
    FreshNone(peers[|peers|..], visited);
    assert newly + [] == newly;
  }

  method Neighbors(edges: seq<Edge>, start: Node, depth: nat) returns (order: seq<(Node, nat)>)
    ensures order == SweepTo(AdjacencyOf(edges), start, depth).order
    ensures IsNeighborhood(UndirectedEdges(edges), start, depth, order)
    ensures InDiscoveryOrder(edges, order)
  {
    hide InDiscoveryOrder;
    hide Sweeping, Queued, SweepTo, UndirectedEdges, Elements, Fresh, Tag, AdjacencyOf, IsNeighborhood, Get;
    var adjacency := BuildAdjacency(edges);
    ghost var lists := adjacency;
    var visited: set<Node> := {start};
    var queue: seq<(Node, nat)> := [(start, 0)];
    order := [(start, 0)];
    ghost var h: nat, rest: seq<Node>, found: seq<Node> := 0, [start], [];
    SweepStart(lists, start, depth);
    while queue != []
      invariant Sweeping(lists, start, depth, h, rest, found, visited, order)
      invariant h <= depth && (h == depth ==> found == [])
      invariant queue == Queued(rest, found, h)
      decreases depth - h, |rest|
    {
      QueuedHead(rest, found, h);
      if rest == [] {
        LevelDone(lists, start, depth, h, found, visited, order);
        h, rest, found := h + 1, found, [];
        QueuedHead(rest, found, h);
      }
      var (node, hops) := queue[0];
      queue := queue[1..];
      if hops == depth {
        HeadSkipped(lists, start, depth, rest, visited, order);
        rest := rest[1..];
        continue;
      }
      HeadExpanded(lists, start, depth, h, rest, found, visited, order);
      ghost var newly := Fresh(Get(adjacency, node), visited);
      visited, queue, order := VisitPeers(Get(adjacency, node), hops, visited, queue, order);
      QueuedMore(rest[1..], found, newly, h);
      rest, found := rest[1..], found + newly;
    }
    QueuedHead(rest, found, h);
    SweepFinished(lists, start, depth, h, visited, order);
    ListingMeaning(edges, start, depth);
    ListingInOrder(edges, start, depth);
  }

  lemma SweepStart(lists: Adjacency, start: Node, depth: nat)
    ensures Sweeping(lists, start, depth, 0, [start], [], {start}, [(start, 0)])
    ensures Queued([start], [], 0) == [(start, 0)]
  {
    assert [(start, 0)] + Tag([], 1) == [(start, 0)];
    assert [] + Expand(lists, [start], {start}) == Expand(lists, [start], {start});
    assert {start} + Elements([]) == {start};
  }

  lemma HeadSkipped(lists: Adjacency, start: Node, depth: nat, rest: seq<Node>, visited: set<Node>,
                    order: seq<(Node, nat)>)
    requires Sweeping(lists, start, depth, depth, rest, [], visited, order) && rest != []
    ensures Sweeping(lists, start, depth, depth, rest[1..], [], visited, order)
  {
  }

  // ---------- what the listing means ----------

  // Level k is exactly the nodes at distance k, and `seen` those within k.
  lemma {:induction false} LevelsAreDistances(lists: Adjacency, edges: Edges, start: Node, k: nat)
    requires forall a, b :: Linked(lists, a, b) <==> (a, b) in edges
    ensures var s := SweepTo(lists, start, k);
      && (forall x :: x in s.seen <==> Within(edges, start, x, k))
      && (forall x :: x in s.level <==> Distance(edges, start, x, k))
  {
    hide Linked, Expand, Joins, Walk;
    if k == 0 {
      ZeroHops(edges, start);
    } else {
      LevelsAreDistances(lists, edges, start, k - 1);
      var s := SweepTo(lists, start, k - 1);
      var next := Expand(lists, s.level, s.seen);
      ExpandMembers(lists, s.level, s.seen);
      forall x ensures x in next <==> Distance(edges, start, x, k) {
        if x in next {
          var y :| y in s.level && Linked(lists, y, x);
          WithinExtends(edges, start, y, x, k - 1);
        }
        if Distance(edges, start, x, k) {
          var y := LastStep(edges, start, x, k);
          assert Linked(lists, y, x);
        }
      }
      forall x ensures x in s.seen + Elements(next) <==> Within(edges, start, x, k) {
        if Within(edges, start, x, k - 1) { WithinMonotone(edges, start, x, k - 1, k); }
      }
    }
  }

  lemma ZeroHops(edges: Edges, start: Node)
    ensures forall x :: Within(edges, start, x, 0) <==> x == start
    ensures forall x :: !Within(edges, start, x, -1)
  {
    ReachesSelf(edges, start);
  }

  // The node before the last on a shortest walk is one hop closer.
  lemma LastStep(edges: Edges, start: Node, x: Node, k: nat) returns (y: Node)
    requires k > 0 && Distance(edges, start, x, k)
    ensures (y, x) in edges && Distance(edges, start, y, k - 1)
  {
    var p :| Joins(edges, p, start, x) && |p| - 1 <= k;
    if |p| == 1 {
      ZeroHops(edges, start);
      WithinMonotone(edges, start, x, 0, k - 1);
    }
    y := p[|p| - 2];
    WalkParts(edges, p, |p| - 2);
    assert Joins(edges, p[..|p| - 1], start, y);
    if Within(edges, start, y, k - 2) {
      WithinExtends(edges, start, y, x, k - 2);
    }
  }

  // Every component within `depth` hops, exactly once, with its exact distance, nearest first.
  ghost predicate IsNeighborhood(edges: Edges, start: Node, depth: nat, order: seq<(Node, nat)>) {
    && (forall i :: 0 <= i < |order| ==> order[i].1 <= depth && Distance(edges, start, order[i].0, order[i].1))
    && (forall i, j :: 0 <= i < j < |order| ==> order[i].0 != order[j].0 && order[i].1 <= order[j].1)
    && (forall x :: Within(edges, start, x, depth) ==> exists i :: 0 <= i < |order| && order[i].0 == x)
  }

  // One more level, of distinct nodes at distance exactly `k`, extends a neighbourhood of depth k - 1.
  lemma NeighborhoodGrows(edges: Edges, start: Node, k: nat, order: seq<(Node, nat)>, next: seq<Node>)
    requires k > 0 && IsNeighborhood(edges, start, k - 1, order)
    requires Distinct(next) && forall x :: x in next <==> Distance(edges, start, x, k)
    ensures IsNeighborhood(edges, start, k, order + Tag(next, k))
  {
    hide Within;
    var grown := order + Tag(next, k);
    forall j | |order| <= j < |grown|
      ensures grown[j] == (next[j - |order|], k) && Distance(edges, start, grown[j].0, k)
    {
      assert next[j - |order|] in next;
    }
    forall i, j | 0 <= i < |order| && |order| <= j < |grown| ensures grown[i].0 != grown[j].0 {
      DistanceDiffers(edges, start, grown[i].0, grown[i].1, k);
    }
    forall x | Within(edges, start, x, k) ensures exists i :: 0 <= i < |grown| && grown[i].0 == x {
      if Within(edges, start, x, k - 1) {
        var i :| 0 <= i < |order| && order[i].0 == x;
        assert grown[i].0 == x;
      } else {
        assert Distance(edges, start, x, k);
        var i :| 0 <= i < |next| && next[i] == x;
        assert grown[|order| + i].0 == x;
      }
    }
  }

  lemma {:induction false} SweepIsNeighborhood(lists: Adjacency, edges: Edges, start: Node, k: nat)
    requires forall a, b :: Linked(lists, a, b) <==> (a, b) in edges
    ensures IsNeighborhood(edges, start, k, SweepTo(lists, start, k).order)
  {
    hide Linked, Expand, Within;
    if k == 0 {
      ZeroHops(edges, start);
      assert Within(edges, start, start, 0) && !Within(edges, start, start, -1);
      assert SweepTo(lists, start, 0).order[0].0 == start;
    } else {
      hide IsNeighborhood, Distance, Tag;
      SweepIsNeighborhood(lists, edges, start, k - 1);
      LevelsAreDistances(lists, edges, start, k);
      var s := SweepTo(lists, start, k - 1);
      ExpandMembers(lists, s.level, s.seen);
      NeighborhoodGrows(edges, start, k, s.order, Expand(lists, s.level, s.seen));
    }
  }

  lemma ListingMeaning(edges: seq<Edge>, start: Node, depth: nat)
    ensures IsNeighborhood(UndirectedEdges(edges), start, depth, SweepTo(AdjacencyOf(edges), start, depth).order)
  {
    AdjacencyMeaning(edges);
    SweepIsNeighborhood(AdjacencyOf(edges), UndirectedEdges(edges), start, depth);
  }

  lemma DistanceDiffers(edges: Edges, start: Node, x: Node, d: int, k: int)
    requires Distance(edges, start, x, d) && d < k
    ensures !Distance(edges, start, x, k)
  {
    WithinMonotone(edges, start, x, d, k - 1);
  }

  // ---------- the order of the listing ----------

  // `nodes[a]` is the first linked to `x`; nothing before it is linked to `y`, and it lists `x` before `y`.
  ghost predicate FoundAt(lists: Adjacency, nodes: seq<Node>, x: Node, y: Node, a: int) {
    && 0 <= a < |nodes| && Linked(lists, nodes[a], x)
    && (forall b :: 0 <= b < a ==> !Linked(lists, nodes[b], x) && !Linked(lists, nodes[b], y))
    && (Linked(lists, nodes[a], y) ==> Position(Get(lists, nodes[a]), x) < Position(Get(lists, nodes[a]), y))
  }

  ghost predicate FoundBefore(lists: Adjacency, nodes: seq<Node>, x: Node, y: Node) {
    exists a :: FoundAt(lists, nodes, x, y, a)
  }

  lemma {:induction false} FreshInOrder(peers: seq<Node>, seen: set<Node>, i: nat, j: nat)
    requires i < j < |Fresh(peers, seen)|
    ensures Position(peers, Fresh(peers, seen)[i]) < Position(peers, Fresh(peers, seen)[j])
  {
    FreshMembers(peers, seen);
    var x, y := Fresh(peers, seen)[i], Fresh(peers, seen)[j];
    assert x in Fresh(peers, seen) && y in Fresh(peers, seen);
    if peers[0] in seen {
      FreshInOrder(peers[1..], seen, i, j);
    } else if i > 0 {
      FreshInOrder(peers[1..], seen + {peers[0]}, i - 1, j - 1);
      assert y == Fresh(peers[1..], seen + {peers[0]})[j - 1];
      FreshMembers(peers[1..], seen + {peers[0]});
      assert x in Fresh(peers[1..], seen + {peers[0]}) && y in Fresh(peers[1..], seen + {peers[0]});
    }
  }

  // Nodes of the next level stand in the order in which the frontier found them.
  lemma {:induction false} ExpandInOrder(lists: Adjacency, frontier: seq<Node>, seen: set<Node>, i: nat, j: nat)
    requires i < j < |Expand(lists, frontier, seen)|
    ensures FoundBefore(lists, frontier, Expand(lists, frontier, seen)[i], Expand(lists, frontier, seen)[j])
  {
    hide Fresh, Position, Get;
    var newly := Fresh(Get(lists, frontier[0]), seen);
    var after := seen + Elements(newly);
    var all, rest := Expand(lists, frontier, seen), Expand(lists, frontier[1..], after);
    var x, y, n := all[i], all[j], |newly|;
    FreshMembers(Get(lists, frontier[0]), seen);
    ExpandMembers(lists, frontier[1..], after);
    if j < n {
      assert newly[i] in newly && newly[j] in newly;
      FreshInOrder(Get(lists, frontier[0]), seen, i, j);
      assert FoundAt(lists, frontier, x, y, 0);
    } else {
      assert y == rest[j - n] && y in rest;
      assert !Linked(lists, frontier[0], y);
      if i < n {
        assert newly[i] in newly;
        assert FoundAt(lists, frontier, x, y, 0);
      } else {
        assert x == rest[i - n] && x in rest;
        ExpandInOrder(lists, frontier[1..], after, i - n, j - n);
        FoundLater(lists, frontier, x, y);
      }
    }
  }

  lemma FoundLater(lists: Adjacency, nodes: seq<Node>, x: Node, y: Node)
    requires nodes != [] && !Linked(lists, nodes[0], x) && !Linked(lists, nodes[0], y)
    requires FoundBefore(lists, nodes[1..], x, y)
    ensures FoundBefore(lists, nodes, x, y)
  {
    hide Linked, Position;
    var a :| FoundAt(lists, nodes[1..], x, y, a);
    assert FoundAt(lists, nodes, x, y, a + 1);
  }

  // More nodes in front that are linked to neither, and any behind.
  lemma FoundWithin(lists: Adjacency, before: seq<Node>, nodes: seq<Node>, after: seq<Node>, x: Node, y: Node)
    requires FoundBefore(lists, nodes, x, y)
    requires forall b :: 0 <= b < |before| ==> !Linked(lists, before[b], x) && !Linked(lists, before[b], y)
    ensures FoundBefore(lists, before + nodes + after, x, y)
  {
    hide Linked, Position;
    var a :| FoundAt(lists, nodes, x, y, a);
    var whole := before + nodes + after;
    assert forall b :: 0 <= b < |whole| ==>
      whole[b] == if b < |before| then before[b] else if b < |before + nodes| then nodes[b - |before|]
                  else after[b - |before + nodes|];
    assert FoundAt(lists, whole, x, y, |before| + a);
  }

  ghost function Names(order: seq<(Node, nat)>): (r: seq<Node>)
    ensures |r| == |order| && forall i :: 0 <= i < |order| ==> r[i] == order[i].0
  {
    seq(|order|, i requires 0 <= i < |order| => order[i].0)
  }

  ghost predicate InFindingOrder(lists: Adjacency, nodes: seq<Node>) {
    forall i, j :: 0 < i < j < |nodes| ==> FoundBefore(lists, nodes, nodes[i], nodes[j])
  }

  // What came before the level that has been reached.
  ghost function Earlier(lists: Adjacency, start: Node, k: nat): seq<(Node, nat)> {
    if k == 0 then [] else SweepTo(lists, start, k - 1).order
  }

  lemma SweepLevel(lists: Adjacency, start: Node, k: nat)
    ensures var s := SweepTo(lists, start, k);
      && s.order == Earlier(lists, start, k) + Tag(s.level, k)
      && Names(s.order) == Names(Earlier(lists, start, k)) + s.level
  {
    hide Expand, Names;
    var s, before := SweepTo(lists, start, k), Earlier(lists, start, k);
    assert k == 0 ==> [] + Tag(s.level, 0) == s.order;
    NamesTagged(before, s.level, k);
  }

  lemma NamesTagged(order: seq<(Node, nat)>, level: seq<Node>, k: nat)
    ensures Names(order + Tag(level, k)) == Names(order) + level
  {
  }

  // A node at distance `k` is linked to nothing nearer than k - 1.
  lemma NotLinkedNearer(lists: Adjacency, edges: Edges, start: Node, y: Node, k: nat, x: Node, d: int)
    requires forall a, b :: Linked(lists, a, b) <==> (a, b) in edges
    requires Distance(edges, start, y, k) && Within(edges, start, x, d) && d < k - 1
    ensures !Linked(lists, x, y)
  {
    hide Linked, Joins;
    if Linked(lists, x, y) {
      WithinExtends(edges, start, x, y, d);
      WithinMonotone(edges, start, y, d + 1, k - 1);
    }
  }

  // The first node of the listing that is linked to a listed one is a level before it.
  lemma Discoverer(lists: Adjacency, edges: Edges, start: Node, k: nat, order: seq<(Node, nat)>, i: nat)
    returns (a: nat)
    requires forall a, b :: Linked(lists, a, b) <==> (a, b) in edges
    requires IsNeighborhood(edges, start, k, order) && i < |order| && order[i].1 > 0
    ensures a < |order| && order[a].1 < order[i].1 && Linked(lists, order[a].0, order[i].0)
    ensures forall b :: 0 <= b < a ==> !Linked(lists, order[b].0, order[i].0) && order[b].1 <= order[a].1
  {
    hide Linked, Joins;
    var x, m := order[i].0, order[i].1;
    var y := LastStep(edges, start, x, m);
    WithinMonotone(edges, start, y, m - 1, k);
    var c :| 0 <= c < |order| && order[c].0 == y;
    SameDistance(edges, start, y, m - 1, order[c].1);
    a := 0;
    while !Linked(lists, order[a].0, x)
      invariant a <= c && forall b :: 0 <= b < a ==> !Linked(lists, order[b].0, x)
      decreases c - a
    {
      a := a + 1;
    }
  }

  lemma SameDistance(edges: Edges, start: Node, x: Node, d: int, k: int)
    requires Distance(edges, start, x, d) && Distance(edges, start, x, k)
    ensures d == k
  {
    if d < k { DistanceDiffers(edges, start, x, d, k); }
    if k < d { DistanceDiffers(edges, start, x, k, d); }
  }

  // An earlier node against one of the level that is being added.
  lemma OldBeforeNew(lists: Adjacency, edges: Edges, start: Node, k: nat, order: seq<(Node, nat)>,
                     next: seq<Node>, i: nat, y: Node)
    requires forall a, b :: Linked(lists, a, b) <==> (a, b) in edges
    requires IsNeighborhood(edges, start, k, order) && i < |order| && order[i].1 > 0
    requires Distance(edges, start, y, k + 1)
    ensures FoundBefore(lists, Names(order) + next, order[i].0, y)
  {
    hide Linked, Joins, Within, Position;
    var a := Discoverer(lists, edges, start, k, order, i);
    forall b | 0 <= b <= a ensures !Linked(lists, order[b].0, y) {
      NotLinkedNearer(lists, edges, start, y, k + 1, order[b].0, order[b].1);
    }
    assert FoundAt(lists, Names(order) + next, order[i].0, y, a);
  }

  // Two nodes of the level that is being added.
  lemma NewBeforeNew(lists: Adjacency, edges: Edges, start: Node, k: nat, i: nat, j: nat)
    requires forall a, b :: Linked(lists, a, b) <==> (a, b) in edges
    requires i < j < |SweepTo(lists, start, k + 1).level|
    ensures var s := SweepTo(lists, start, k + 1);
      FoundBefore(lists, Names(s.order), s.level[i], s.level[j])
  {
    hide Linked, Expand, Within, FoundBefore, IsNeighborhood;
    var s, t := SweepTo(lists, start, k), SweepTo(lists, start, k + 1);
    var before := Names(Earlier(lists, start, k));
    var x, y := t.level[i], t.level[j];
    ExpandInOrder(lists, s.level, s.seen, i, j);
    LevelsAreDistances(lists, edges, start, k + 1);
    forall b | 0 <= b < |before| ensures !Linked(lists, before[b], x) && !Linked(lists, before[b], y) {
      NearerLevels(lists, edges, start, k, b);
      NotLinkedNearer(lists, edges, start, x, k + 1, before[b], k - 1);
      NotLinkedNearer(lists, edges, start, y, k + 1, before[b], k - 1);
    }
    FoundWithin(lists, before, s.level, t.level, x, y);
    SweepLevel(lists, start, k);
    SweepLevel(lists, start, k + 1);
  }

  lemma NearerLevels(lists: Adjacency, edges: Edges, start: Node, k: nat, b: nat)
    requires forall a, b :: Linked(lists, a, b) <==> (a, b) in edges
    requires b < |Earlier(lists, start, k)|
    ensures k > 0 && Within(edges, start, Earlier(lists, start, k)[b].0, k - 1)
  {
    hide Linked, Within, Expand;
    SweepIsNeighborhood(lists, edges, start, k - 1);
    var e := Earlier(lists, start, k)[b];
    WithinMonotone(edges, start, e.0, e.1, k - 1);
  }

  lemma InOrderStep(lists: Adjacency, edges: Edges, start: Node, k: nat, i: nat, j: nat)
    requires forall a, b :: Linked(lists, a, b) <==> (a, b) in edges
    requires InFindingOrder(lists, Names(SweepTo(lists, start, k).order))
    requires 0 < i < j < |SweepTo(lists, start, k + 1).order|
    ensures var nodes := Names(SweepTo(lists, start, k + 1).order); FoundBefore(lists, nodes, nodes[i], nodes[j])
  {
    hide Linked, Expand, FoundBefore, Distance, Tag, IsNeighborhood, SweepTo;
    var s, t := SweepTo(lists, start, k), SweepTo(lists, start, k + 1);
    SweepLevel(lists, start, k + 1);
    var before, all, n := Names(s.order), Names(t.order), |s.order|;
    assert all == before + t.level;
    if j < n {
      FoundWithin(lists, [], before, t.level, all[i], all[j]);
      assert [] + before + t.level == all;
    } else {
      LevelsAreDistances(lists, edges, start, k + 1);
      assert all[j] == t.level[j - n] && all[j] in t.level;
      if i < n {
        assert all[i] == before[i] == s.order[i].0;
        SweepIsNeighborhood(lists, edges, start, k);
        StartIsFirst(edges, start, k, s.order, i);
        OldBeforeNew(lists, edges, start, k, s.order, t.level, i, all[j]);
      } else {
        NewBeforeNew(lists, edges, start, k, i - n, j - n);
      }
    }
  }

  lemma {:induction false} SweepInOrder(lists: Adjacency, edges: Edges, start: Node, k: nat)
    requires forall a, b :: Linked(lists, a, b) <==> (a, b) in edges
    ensures InFindingOrder(lists, Names(SweepTo(lists, start, k).order))
  {
    hide SweepTo, Linked, FoundBefore;
    if k == 0 {
      OneListed(lists, start);
    } else {
      SweepInOrder(lists, edges, start, k - 1);
      var nodes := Names(SweepTo(lists, start, k).order);
      forall i, j | 0 < i < j < |nodes| ensures FoundBefore(lists, nodes, nodes[i], nodes[j]) {
        InOrderStep(lists, edges, start, k - 1, i, j);
      }
    }
  }

  lemma OneListed(lists: Adjacency, start: Node)
    ensures |SweepTo(lists, start, 0).order| == 1
  {
  }

  // Only the start is at distance 0.
  lemma StartIsFirst(edges: Edges, start: Node, k: nat, order: seq<(Node, nat)>, i: nat)
    requires IsNeighborhood(edges, start, k, order) && 0 < i < |order|
    ensures order[i].1 > 0
  {
    hide Distance;
    ZeroIsStart(edges, start, order[0].0, order[0].1);
    ZeroIsStart(edges, start, order[i].0, order[i].1);
    assert order[0].0 != order[i].0 && order[0].1 <= order[i].1;
  }

  lemma ZeroIsStart(edges: Edges, start: Node, x: Node, d: nat)
    requires Distance(edges, start, x, d)
    ensures d == 0 ==> x == start
  {
    ZeroHops(edges, start);
  }

  // `order[a]` is the first of the listing joined to `x`; nothing before it is joined to `y`, and if it is joined
  // to `y` itself, an edge to `x` was recorded first.
  ghost predicate DiscoveredAt(edges: seq<Edge>, order: seq<(Node, nat)>, x: Node, y: Node, a: int) {
    && 0 <= a < |order| && Joined(edges, order[a].0, x)
    && (forall b :: 0 <= b < a ==> !Joined(edges, order[b].0, x) && !Joined(edges, order[b].0, y))
    && (Joined(edges, order[a].0, y) ==> JoinedBefore(edges, order[a].0, x, y))
  }

  ghost predicate Joined(edges: seq<Edge>, n: Node, x: Node) {
    exists e :: e in edges && Touches(e, n, x)
  }

  ghost predicate DiscoveredBefore(edges: seq<Edge>, order: seq<(Node, nat)>, x: Node, y: Node) {
    exists a :: DiscoveredAt(edges, order, x, y, a)
  }

  // Whatever is listed after the start stands in the order of discovery.
  ghost predicate InDiscoveryOrder(edges: seq<Edge>, order: seq<(Node, nat)>) {
    forall i, j :: 0 < i < j < |order| ==> DiscoveredBefore(edges, order, order[i].0, order[j].0)
  }

  lemma ListingInOrder(edges: seq<Edge>, start: Node, depth: nat)
    ensures InDiscoveryOrder(edges, SweepTo(AdjacencyOf(edges), start, depth).order)
  {
    hide AdjacencyOf, SweepTo, Linked, FoundAt, Joined, JoinedBefore, UndirectedEdges;
    var lists := AdjacencyOf(edges);
    var order := SweepTo(lists, start, depth).order;
    AdjacencyMeaning(edges);
    SweepInOrder(lists, UndirectedEdges(edges), start, depth);
    var nodes := Names(order);
    forall i, j | 0 < i < j < |order| ensures DiscoveredBefore(edges, order, order[i].0, order[j].0) {
      assert FoundBefore(lists, nodes, nodes[i], nodes[j]);
      var a :| FoundAt(lists, nodes, nodes[i], nodes[j], a);
      FoundIsDiscovered(edges, order, order[i].0, order[j].0, a);
    }
  }

  lemma LinkedIsJoined(edges: seq<Edge>, n: Node)
    ensures forall x :: Linked(AdjacencyOf(edges), n, x) <==> Joined(edges, n, x)
  {
    hide AdjacencyOf, JoinedBefore;
    PeersInOrder(edges, n);
  }

  lemma FoundIsDiscovered(edges: seq<Edge>, order: seq<(Node, nat)>, x: Node, y: Node, a: int)
    requires FoundAt(AdjacencyOf(edges), Names(order), x, y, a)
    ensures DiscoveredAt(edges, order, x, y, a)
  {
    hide AdjacencyOf, Joined, JoinedBefore, Position;
    var lists, nodes := AdjacencyOf(edges), Names(order);
    forall b | 0 <= b <= a ensures forall z :: Linked(lists, nodes[b], z) <==> Joined(edges, order[b].0, z) {
      LinkedIsJoined(edges, nodes[b]);
    }
    if Joined(edges, order[a].0, y) {
      var l := Get(lists, nodes[a]);
      assert Linked(lists, nodes[a], x) && Linked(lists, nodes[a], y);
      PositionOf(l, x);
      PositionOf(l, y);
      PeersInOrder(edges, nodes[a]);
      assert l[Position(l, x)] == x && l[Position(l, y)] == y;
    }
  }

  // A deeper search only appends.
  lemma {:induction false} DeeperExtends(lists: Adjacency, start: Node, j: nat, k: nat)
    requires j <= k
    ensures SweepTo(lists, start, j).order <= SweepTo(lists, start, k).order
    decreases k
  {
    if j < k {
      DeeperExtends(lists, start, j, k - 1);
    }
  }

  // ---------- roots ----------

  ghost predicate HasIncoming(edges: seq<Edge>, n: Node) {
    exists e :: e in edges && e.kind.directed && e.second == n
  }

  // The members without an incoming directed edge, each at its first occurrence.
  ghost function RootsOf(edges: seq<Edge>, universe: seq<Node>): seq<Node> {
    if universe == [] then []
    else
      var n, before := universe[|universe| - 1], universe[..|universe| - 1];
      if HasIncoming(edges, n) || n in before then RootsOf(edges, before) else RootsOf(edges, before) + [n]
  }

  method Roots(edges: seq<Edge>, universe: seq<Node>) returns (roots: seq<Node>)
    ensures roots == RootsOf(edges, universe)
  {
    var hasIncoming: set<Node> := {};
    for i := 0 to |edges|
      invariant forall n :: n in hasIncoming <==> HasIncoming(edges[..i], n)
    {
      assert forall e :: e in edges[..i + 1] <==> e in edges[..i] || e == edges[i];
      if edges[i].kind.directed {
        hasIncoming := hasIncoming + {edges[i].second};
      }
    }
    assert edges[..|edges|] == edges;
    roots := [];
    var seen: set<Node> := {};
    for i := 0 to |universe|
      invariant roots == RootsOf(edges, universe[..i])
      invariant forall n :: n in seen <==> n in universe[..i] && n !in hasIncoming
    {
      var component := universe[i];
      assert universe[..i + 1][..i] == universe[..i];
      assert forall n :: n in universe[..i + 1] <==> n in universe[..i] || n == component;
      if component in hasIncoming {
        continue;
      }
      if component !in seen {
        seen := seen + {component};
        roots := roots + [component];
      }
    }
    assert universe[..|universe|] == universe;
  }

  // `r` lists members of `universe` once each, in order of first occurrence.
  ghost predicate FirstOccurrences(universe: seq<Node>, r: seq<Node>) {
    && Distinct(r)
    && (forall i, j :: 0 <= i < j < |r| ==>
      exists k :: 0 <= k < |universe| && universe[k] == r[i] && r[j] !in universe[..k])
  }

  lemma {:induction false} RootsInOrder(edges: seq<Edge>, universe: seq<Node>)
    ensures FirstOccurrences(universe, RootsOf(edges, universe))
    ensures forall n :: n in RootsOf(edges, universe) <==> n in universe && !HasIncoming(edges, n)
  {
    if universe != [] {
      var n, before := universe[|universe| - 1], universe[..|universe| - 1];
      RootsInOrder(edges, before);
      assert universe == before + [n];
      var r, q := RootsOf(edges, universe), RootsOf(edges, before);
      forall i, j | 0 <= i < j < |r|
        ensures exists k :: 0 <= k < |universe| && universe[k] == r[i] && r[j] !in universe[..k]
      {
        if j < |q| {
          var k :| 0 <= k < |before| && before[k] == q[i] && q[j] !in before[..k];
          assert universe[..k] == before[..k];
        } else {
          assert r[i] == q[i] && q[i] in before;
          var k :| 0 <= k < |before| && before[k] == q[i];
          assert universe[..k] == before[..k];
        }
      }
    }
  }

  // ---------- projection into the directed store ----------

  datatype Entry = Entry(id: Node, deleted: bool)

  datatype Projection = Projected(graph: DirectedGraph) | BadSource(edge: Edge) | BadDestination(edge: Edge)

  ghost function LiveIds(entries: seq<Entry>): set<Node> {
    set c | c in entries && !c.deleted :: c.id
  }

  // The endpoints of the directed edges.
  ghost function Endpoints(edges: seq<Edge>): set<Node> {
    (set e | e in edges && e.kind.directed :: e.first) + (set e | e in edges && e.kind.directed :: e.second)
  }

  ghost predicate Parses(parses: string -> bool, e: Edge) {
    e.kind.directed ==> parses(e.first) && parses(e.second)
  }

  lemma DirectedSnoc(edges: seq<Edge>, e: Edge)
    ensures DirectedEdges(edges + [e]) == DirectedEdges(edges) + if e.kind.directed then {(e.first, e.second)} else {}
    ensures Endpoints(edges + [e]) == Endpoints(edges) + if e.kind.directed then {e.first, e.second} else {}
  {
    forall d ensures d in edges + [e] <==> d in edges || d == e {
      assert (edges + [e])[|edges|] == e;
    }
  }

  // The directed edges, in the order in which they are handed to the store.
  ghost function DirectedPairs(edges: seq<Edge>): Additions {
    if edges == [] then []
    else
      var e := edges[|edges| - 1];
      DirectedPairs(edges[..|edges| - 1]) + if e.kind.directed then [(e.first, e.second)] else []
  }

  predicate Points(e: Edge, pair: (Node, Node)) {
    e.kind.directed && (e.first, e.second) == pair
  }

  // `d` was recorded as a directed edge at a time when `e` had not been.
  ghost predicate PointedBefore(edges: seq<Edge>, d: (Node, Node), e: (Node, Node)) {
    exists k :: 0 <= k < |edges| && Points(edges[k], d) && forall m :: 0 <= m <= k ==> !Points(edges[m], e)
  }

  ghost predicate Pointed(edges: seq<Edge>, d: (Node, Node)) {
    exists k :: 0 <= k < |edges| && Points(edges[k], d)
  }

  // So the store has them in file order.
  lemma {:induction false} PairsInOrder(edges: seq<Edge>, d: (Node, Node), e: (Node, Node))
    ensures d in DirectedPairs(edges) <==> Pointed(edges, d)
    ensures e in DirectedPairs(edges) <==> Pointed(edges, e)
    ensures AddedBefore(DirectedPairs(edges), d, e) <==> PointedBefore(edges, d, e)
  {
    hide AddedBefore, PointedBefore, Pointed;
    if edges == [] {
      NothingPointed(d, e);
    } else {
      var before, last := edges[..|edges| - 1], edges[|edges| - 1];
      var pairs := DirectedPairs(before);
      PairsInOrder(before, d, e);
      PointedSnoc(before, last, d, e);
      assert edges == before + [last] && pairs + [] == pairs;
      if last.kind.directed {
        AddedSnoc(pairs, (last.first, last.second), d, e);
      }
    }
  }

  lemma NothingPointed(d: (Node, Node), e: (Node, Node))
    ensures !Pointed([], d) && !Pointed([], e) && !AddedBefore([], d, e) && !PointedBefore([], d, e)
  {
  }

  lemma AddedSnoc(added: Additions, last: (Node, Node), d: (Node, Node), e: (Node, Node))
    ensures AddedBefore(added + [last], d, e) <==>
      AddedBefore(added, d, e) || (last == d && e != d && e !in added)
  {
    var all := added + [last];
    assert all[|added|] == last && forall i :: 0 <= i < |added| ==> all[i] == added[i];
    assert e in added <==> exists i :: 0 <= i < |added| && all[i] == e;
  }

  lemma PointedSnoc(edges: seq<Edge>, last: Edge, d: (Node, Node), e: (Node, Node))
    ensures PointedBefore(edges + [last], d, e) <==>
      PointedBefore(edges, d, e) || (Points(last, d) && e != d && !Pointed(edges, e))
    ensures Pointed(edges + [last], d) <==> Pointed(edges, d) || Points(last, d)
    ensures Pointed(edges + [last], e) <==> Pointed(edges, e) || Points(last, e)
  {
    var all := edges + [last];
    assert all[|edges|] == last && forall i :: 0 <= i < |edges| ==> all[i] == edges[i];
  }

  lemma LiveSnoc(entries: seq<Entry>, c: Entry)
    ensures LiveIds(entries + [c]) == LiveIds(entries) + if c.deleted then {} else {c.id}
  {
    forall d ensures d in entries + [c] <==> d in entries || d == c {
      assert (entries + [c])[|entries|] == c;
    }
  }

  lemma NothingProjected()
    ensures LiveIds([]) == {} && DirectedEdges([]) == {} && Endpoints([]) == {} && DirectedPairs([]) == []
  {
  }

  lemma PairsSnoc(edges: seq<Edge>, e: Edge)
    ensures DirectedPairs(edges + [e]) == DirectedPairs(edges) + if e.kind.directed then [(e.first, e.second)] else []
  {
    assert (edges + [e])[..|edges|] == edges;
  }

  // `edge` is the first one that does not parse.
  ghost predicate FirstUnparsed(edges: seq<Edge>, parses: string -> bool, edge: Edge) {
    exists i :: 0 <= i < |edges| && edges[i] == edge && !Parses(parses, edge) &&
      forall j :: 0 <= j < i ==> Parses(parses, edges[j])
  }

  // `parses` says which strings are component identifiers; the first directed edge with a
  // participant that is not one stops the projection.
  method BuildDirectedComponentGraph(entries: seq<Entry>, edges: seq<Edge>, parses: string -> bool)
    returns (r: Projection)
    ensures r.Projected? <==> forall e :: e in edges ==> Parses(parses, e)
    ensures r.Projected? ==> fresh(r.graph) && r.graph.Valid()
    ensures r.Projected? ==> r.graph.EdgeSet() == DirectedEdges(edges)
    ensures r.Projected? ==> r.graph.added == DirectedPairs(edges)
    ensures r.Projected? ==> r.graph.nodes == LiveIds(entries) + Endpoints(edges)
    ensures !r.Projected? ==> FirstUnparsed(edges, parses, r.edge) && (r.BadSource? <==> !parses(r.edge.first))
  {
    hide DirectedEdges, DirectedPairs, Endpoints, LiveIds, Consistent, InAddedOrder, EdgesOf, PushUnique;
    NothingProjected();
    assert entries[..0] == [] && edges[..0] == [];
    var graph := new DirectedGraph();
    for i := 0 to |entries|
      invariant fresh(graph) && graph.Valid() && graph.EdgeSet() == {} && graph.nodes == LiveIds(entries[..i])
      invariant graph.added == []
    {
      assert entries[..i + 1] == entries[..i] + [entries[i]];
      LiveSnoc(entries[..i], entries[i]);
      if !entries[i].deleted {
        graph.AddNode(entries[i].id);
      }
    }
    assert entries[..|entries|] == entries;
    for i := 0 to |edges|
      invariant fresh(graph) && graph.Valid() && graph.EdgeSet() == DirectedEdges(edges[..i])
      invariant graph.nodes == LiveIds(entries) + Endpoints(edges[..i]) && graph.added == DirectedPairs(edges[..i])
      invariant forall j :: 0 <= j < i ==> Parses(parses, edges[j])
    {
      var edge := edges[i];
      assert edges[..i + 1] == edges[..i] + [edge];
      DirectedSnoc(edges[..i], edge);
      PairsSnoc(edges[..i], edge);
      assert edge in edges && edges[i] == edge;
      if edge.kind.directed {
        if !parses(edge.first) {
          return BadSource(edge);
        }
        if !parses(edge.second) {
          return BadDestination(edge);
        }
        graph.AddEdge(edge.first, edge.second);
      }
    }
    assert edges[..|edges|] == edges;
    r := Projected(graph);
  }

  // After projection, the roots are the universe members without in-neighbours.
  lemma RootsAreSources(edges: seq<Edge>, universe: seq<Node>, graph: DirectedGraph)
    requires graph.Valid() && graph.EdgeSet() == DirectedEdges(edges)
    ensures FirstOccurrences(universe, RootsOf(edges, universe))
    ensures forall n :: n in RootsOf(edges, universe) <==> n in universe && graph.ReverseNeighbors(n) == []
  {
    LinkedIsEdge(graph.outEdges);
    RootsInOrder(edges, universe);
    forall n ensures HasIncoming(edges, n) <==> graph.ReverseNeighbors(n) != [] {
      if HasIncoming(edges, n) {
        var e :| e in edges && e.kind.directed && e.second == n;
        assert Linked(graph.outEdges, e.first, n) && Linked(graph.inEdges, n, e.first);
      }
      if graph.ReverseNeighbors(n) != [] {
        var a := graph.ReverseNeighbors(n)[0];
        assert Linked(graph.inEdges, n, a) && Linked(graph.outEdges, a, n);
        assert (a, n) in DirectedEdges(edges);
      }
    }
  }
}
