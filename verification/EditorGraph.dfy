/** The editor graph, its start node, and the breadth-first numbering of its nodes. */
module EditorGraph {
  import opened Schema
  import opened Wrappers

  datatype NodeKind = Condition | Action
  datatype Handle = OnTrue | OnFalse | Out
  datatype Node = Node(id: string, kind: NodeKind, stepTypeId: string, params: Params)
  datatype Edge = Edge(source: string, target: string, handle: Handle)
  datatype Graph = Graph(nodes: seq<Node>, edges: seq<Edge>)

  /** What the encoder takes for granted of the editor: distinct node ids and edges between nodes. */
  ghost predicate WellFormed(g: Graph) {
    && (forall i, j :: 0 <= i < j < |g.nodes| ==> g.nodes[i].id != g.nodes[j].id)
    && (forall e :: e in g.edges ==> e.source in Ids(g) && e.target in Ids(g))
  }

  function Ids(g: Graph): set<string> { set n | n in g.nodes :: n.id }

  function Targets(es: seq<Edge>): set<string> { set e | e in es :: e.target }

  predicate IsStart(g: Graph, id: string) { id !in Targets(g.edges) }

  /** The entry of `edgesBySource` for a node: its outgoing edges in the graph's order. */
  function OutEdges(es: seq<Edge>, id: string): (out: seq<Edge>)
    ensures forall e :: e in out <==> e in es && e.source == id
  {
    if es == [] then []
    else OutEdges(es[..|es| - 1], id) + (if es[|es| - 1].source == id then [es[|es| - 1]] else [])
  }

  /** How many edges end in a node. */
  function Incoming(es: seq<Edge>, id: string): (n: nat)
    ensures n == 0 <==> id !in Targets(es)
  {
    if es == [] then 0
    else
      assert es == es[..|es| - 1] + [es[|es| - 1]];
      Incoming(es[..|es| - 1], id) + (if es[|es| - 1].target == id then 1 else 0)
  }

  method CountIncoming(g: Graph) returns (counts: map<string, nat>)
    ensures Counted(Ids(g), g.edges, counts)
  {
    counts := map[];
    for i := 0 to |g.nodes|
      invariant forall id :: id in counts <==> exists n :: n in g.nodes[..i] && n.id == id
      invariant forall id :: id in counts ==> counts[id] == 0
    {
      assert g.nodes[..i + 1] == g.nodes[..i] + [g.nodes[i]];
      counts := counts[g.nodes[i].id := 0];
    }
    assert g.nodes[..|g.nodes|] == g.nodes;
    assert counts.Keys == Ids(g);
    counts := AddIncoming(g.edges, counts);
  }

  ghost predicate Counted(zeros: set<string>, es: seq<Edge>, counts: map<string, nat>) {
    && counts.Keys == zeros + Targets(es)
    && forall id :: id in counts ==> counts[id] == Incoming(es, id)
  }

  function Increment(counts: map<string, nat>, target: string): map<string, nat> {
    counts[target := (if target in counts then counts[target] else 0) + 1]
  }

  method AddIncoming(es: seq<Edge>, zeros: map<string, nat>) returns (counts: map<string, nat>)
    requires forall id :: id in zeros ==> zeros[id] == 0
    ensures Counted(zeros.Keys, es, counts)
  {
    counts := zeros;
    for i := 0 to |es|
      invariant Counted(zeros.Keys, es[..i], counts)
    {
      CountOneMore(zeros.Keys, es[..i], es[i], counts);
      assert es[..i + 1] == es[..i] + [es[i]];
      counts := Increment(counts, es[i].target);
    }
    assert es[..|es|] == es;
  }

  lemma CountOneMore(zeros: set<string>, es: seq<Edge>, e: Edge, counts: map<string, nat>)
    requires Counted(zeros, es, counts)
    ensures Counted(zeros, es + [e], Increment(counts, e.target))
  {
    assert (es + [e])[..|es|] == es;
    assert Targets(es + [e]) == Targets(es) + {e.target};
    var counts' := Increment(counts, e.target);
    forall id | id in counts' ensures counts'[id] == Incoming(es + [e], id) {
    }
  }

  /** The start nodes in the graph's order. */
  function StartNodes(g: Graph, nodes: seq<Node>): seq<Node> {
    if nodes == [] then []
    else StartNodes(g, nodes[..|nodes| - 1]) + (if IsStart(g, nodes[|nodes| - 1].id) then [nodes[|nodes| - 1]] else [])
  }

  function OwnerOnly(g: Graph): bool {
    var starts := StartNodes(g, g.nodes);
    |starts| == 1 && starts[0].kind == Action
  }

  method InferOwnerOnly(g: Graph) returns (ownerOnly: bool)
    ensures ownerOnly == OwnerOnly(g)
  {
    var counts := CountIncoming(g);
    var starts: seq<Node> := [];
    for i := 0 to |g.nodes|
      invariant starts == StartNodes(g, g.nodes[..i])
    {
      assert g.nodes[..i + 1][..i] == g.nodes[..i];
      if counts[g.nodes[i].id] == 0 { starts := starts + [g.nodes[i]]; }
    }
    assert g.nodes[..|g.nodes|] == g.nodes;
    ownerOnly := |starts| == 1 && starts[0].kind == Action;
  }

  // ---- breadth-first order ----

  /** Queueing the unvisited targets of some edges, in order. */
  function Enqueue(es: seq<Edge>, visited: set<string>, queue: seq<string>): (r: (set<string>, seq<string>))
    ensures r.0 == visited + Targets(es)
    ensures r.0 == visited ==> r.1 == queue
  {
    if es == [] then (visited, queue)
    else
      var (v, q) := Enqueue(es[..|es| - 1], visited, queue);
      var last := es[|es| - 1];
      assert es == es[..|es| - 1] + [last];
      if last.target in v then (v, q) else (v + {last.target}, q + [last.target])
  }

  /** The number of edge targets not visited yet. */
  ghost function Unseen(g: Graph, visited: set<string>): nat { |Targets(g.edges) - visited| }

  function Bfs(g: Graph, queue: seq<string>, visited: set<string>): seq<string>
    decreases Unseen(g, visited), |queue|
  {
    if queue == [] then []
    else
      var out := OutEdges(g.edges, queue[0]);
      var (v, q) := Enqueue(out, visited, queue[1..]);
      Shrinks(g, visited, v);
      [queue[0]] + Bfs(g, q, v)
  }

  lemma Shrinks(g: Graph, visited: set<string>, v: set<string>)
    requires visited <= v <= visited + Targets(g.edges)
    ensures v == visited || Unseen(g, v) < Unseen(g, visited)
  {
    var before, after := Targets(g.edges) - visited, Targets(g.edges) - v;
    if v != visited {
      var id :| id in v && id !in visited;
      assert after <= before - {id};
      Smaller(after, before - {id});
    }
  }

  lemma Smaller(a: set<string>, b: set<string>)
    requires a <= b
    ensures |a| <= |b|
  {
    assert b == a + (b - a);
  }

  /** The start node is the first one nothing points to. */
  function StartId(g: Graph): Option<string> {
    var starts := StartNodes(g, g.nodes);
    if starts == [] then None else Some(starts[0].id)
  }

  /** The encoder's numbering; fails without a start node. */
  function Order(g: Graph): Option<seq<string>> {
    var start := StartId(g);
    if start.None? then None else Some(Bfs(g, [start.value], {start.value}))
  }

  function EdgesFrom(bySource: map<string, seq<Edge>>, id: string): seq<Edge> {
    if id in bySource then bySource[id] else []
  }

  method GroupBySource(es: seq<Edge>) returns (bySource: map<string, seq<Edge>>)
    ensures forall id :: EdgesFrom(bySource, id) == OutEdges(es, id)
  {
    bySource := map[];
    for i := 0 to |es|
      invariant forall id :: EdgesFrom(bySource, id) == OutEdges(es[..i], id)
    {
      assert es[..i + 1][..i] == es[..i];
      bySource := bySource[es[i].source := EdgesFrom(bySource, es[i].source) + [es[i]]];
    }
    assert es[..|es|] == es;
  }

  method BreadthFirst(g: Graph) returns (r: Option<seq<string>>)
    ensures r == Order(g)
  {
    var counts := CountIncoming(g);
    var start := FindStart(g, counts);
    if start.None? { return None; }
    var order := Search(g, start.value);
    r := Some(order);
  }

  method Search(g: Graph, start: string) returns (order: seq<string>)
    ensures order == Bfs(g, [start], {start})
  {
    hide EdgesFrom, Enqueue, OutEdges, Unseen;
    order := [];
    var visited, queue := {start}, [start];
    var bySource := GroupBySource(g.edges);
    while queue != []
      invariant Bfs(g, [start], {start}) == order + Bfs(g, queue, visited)
      decreases Unseen(g, visited), |queue|
    {
      var id := queue[0];
      ghost var before := visited;
      order := order + [id];
      visited, queue := VisitTargets(EdgesFrom(bySource, id), visited, queue[1..]);
      Shrinks(g, before, visited);
    }
  }

  method VisitTargets(out: seq<Edge>, visited: set<string>, queue: seq<string>) returns (v: set<string>, q: seq<string>)
    ensures (v, q) == Enqueue(out, visited, queue)
  {
    v, q := visited, queue;
    for i := 0 to |out|
      invariant (v, q) == Enqueue(out[..i], visited, queue)
    {
      assert out[..i + 1][..i] == out[..i];
      if out[i].target !in v { v, q := v + {out[i].target}, q + [out[i].target]; }
    }
    assert out[..|out|] == out;
  }

  method FindStart(g: Graph, counts: map<string, nat>) returns (start: Option<string>)
    requires Counted(Ids(g), g.edges, counts)
    ensures start == StartId(g)
  {
    for i := 0 to |g.nodes|
      invariant StartNodes(g, g.nodes[..i]) == []
    {
      assert g.nodes[..i + 1][..i] == g.nodes[..i];
      if counts[g.nodes[i].id] == 0 {
        StartsArePrefix(g, i + 1);
        return Some(g.nodes[i].id);
      }
    }
    assert g.nodes[..|g.nodes|] == g.nodes;
    start := None;
  }

  lemma StartsArePrefix(g: Graph, k: nat)
    requires k <= |g.nodes|
    ensures StartNodes(g, g.nodes[..k]) <= StartNodes(g, g.nodes)
    decreases |g.nodes| - k
  {
    if k == |g.nodes| {
      assert g.nodes[..k] == g.nodes;
    } else {
      assert g.nodes[..k + 1][..k] == g.nodes[..k];
      StartsArePrefix(g, k + 1);
    }
  }

  // ---- start nodes ----

  /** No edge ends in the node at position k. */
  ghost predicate StartsAt(g: Graph, k: nat) {
    k < |g.nodes| && forall e :: e in g.edges ==> e.target != g.nodes[k].id
  }

  lemma {:induction false} StartsOf(g: Graph, n: nat)
    requires n <= |g.nodes|
    ensures var starts := StartNodes(g, g.nodes[..n]);
            && (starts == [] <==> forall k: nat :: k < n ==> !StartsAt(g, k))
            && (starts != [] ==> exists k: nat :: k < n && starts[0] == g.nodes[k] && IsFirstStart(g, k))
            && (|starts| <= 1 <==> forall i: nat, j: nat :: i < j < n ==> !StartsAt(g, i) || !StartsAt(g, j))
  {
    if n > 0 {
      StartsOf(g, n - 1);
      assert g.nodes[..n][..n - 1] == g.nodes[..n - 1];
      StartsAtMeans(g, n - 1);
      hide StartsAt, IsStart;
      if StartNodes(g, g.nodes[..n - 1]) == [] && StartsAt(g, n - 1) { assert IsFirstStart(g, n - 1); }
    }
  }

  lemma StartsAtMeans(g: Graph, k: nat)
    requires k < |g.nodes|
    ensures StartsAt(g, k) <==> IsStart(g, g.nodes[k].id)
  {
  }

  ghost predicate IsFirstStart(g: Graph, k: nat) { StartsAt(g, k) && forall j: nat :: j < k ==> !StartsAt(g, j) }

  ghost predicate IsOnlyStart(g: Graph, k: nat) { forall j: nat :: StartsAt(g, j) <==> j == k }

  /** The start node is the first one that no edge ends in; there is none exactly if edges end in all nodes. */
  lemma StartIsFirst(g: Graph)
    ensures StartId(g).None? <==> forall k: nat :: !StartsAt(g, k)
    ensures forall k: nat :: IsFirstStart(g, k) ==> StartId(g) == Some(g.nodes[k].id)
  {
    StartsOf(g, |g.nodes|);
    assert g.nodes[..|g.nodes|] == g.nodes;
  }

  /** Owner-only: a single node that no edge ends in, and that is an action. */
  lemma OwnerOnlyExactly(g: Graph)
    ensures OwnerOnly(g) <==>
            exists k: nat :: k < |g.nodes| && g.nodes[k].kind == Action && IsOnlyStart(g, k)
  {
    hide StartNodes, StartsAt;
    StartsOf(g, |g.nodes|);
    assert g.nodes[..|g.nodes|] == g.nodes;
    var starts := StartNodes(g, g.nodes);
    if starts != [] {
      var first: nat :| first < |g.nodes| && starts[0] == g.nodes[first] && IsFirstStart(g, first);
      forall k: nat ensures IsOnlyStart(g, k) <==> |starts| == 1 && k == first {
        OnlyStartIsFirst(g, first, k);
      }
    } else {
      forall k: nat | k < |g.nodes| ensures !IsOnlyStart(g, k) {
        assert !StartsAt(g, k);
      }
    }
  }

  lemma OnlyStartIsFirst(g: Graph, first: nat, k: nat)
    requires IsFirstStart(g, first)
    ensures IsOnlyStart(g, k) <==>
            k == first && forall i: nat, j: nat :: i < j < |g.nodes| ==> !StartsAt(g, i) || !StartsAt(g, j)
  {
    forall j: nat | StartsAt(g, j) ensures first <= j < |g.nodes| {
    }
  }

  // ---- what the order contains ----

  predicate Distinct(s: seq<string>) { forall i, j :: 0 <= i < j < |s| ==> s[i] != s[j] }

  /** A path along edges. */
  ghost predicate Reaches(g: Graph, from: string, to: string, steps: nat)
    decreases steps
  {
    if steps == 0 then from == to
    else exists e :: e in g.edges && e.target == to && Reaches(g, from, e.source, steps - 1)
  }

  ghost predicate Reachable(g: Graph, from: string, to: string) { exists n: nat :: Reaches(g, from, to, n) }

  /** Queueing keeps the queue and appends, once each, exactly the targets not visited before. */
  lemma {:induction false} EnqueueAppends(es: seq<Edge>, visited: set<string>, queue: seq<string>)
    requires Distinct(queue) && (forall id :: id in queue ==> id in visited)
    ensures var q := Enqueue(es, visited, queue).1;
            && queue <= q && Distinct(q)
            && (forall i :: |queue| <= i < |q| ==> q[i] in Targets(es) && q[i] !in visited)
            && (forall id :: id in Targets(es) && id !in visited ==> id in q)
  {
    if es != [] {
      var front, last := es[..|es| - 1], es[|es| - 1];
      assert es == front + [last];
      EnqueueAppends(front, visited, queue);
      var (v, q) := Enqueue(front, visited, queue);
      if last.target !in v {
        assert forall id :: id in q ==> id in v by {
          assert forall i :: 0 <= i < |queue| ==> q[i] == queue[i];
        }
      }
    }
  }

  /** A search continues its queue, visits nothing twice, and leaves no edge into the unvisited. */
  ghost predicate Searched(g: Graph, queue: seq<string>, visited: set<string>, order: seq<string>) {
    && queue <= order && Distinct(order)
    && (forall i :: |queue| <= i < |order| ==> order[i] !in visited)
    && (forall e :: e in g.edges && e.source in order ==> e.target in order || e.target in visited)
  }

  lemma {:induction false} BfsSearches(g: Graph, queue: seq<string>, visited: set<string>)
    requires Distinct(queue) && (forall id :: id in queue ==> id in visited)
    ensures Searched(g, queue, visited, Bfs(g, queue, visited))
    decreases Unseen(g, visited), |queue|
  {
    if queue != [] {
      var out := OutEdges(g.edges, queue[0]);
      var (v, q) := Enqueue(out, visited, queue[1..]);
      Shrinks(g, visited, v);
      EnqueueAppends(out, visited, queue[1..]);
      QueueIsVisited(queue, visited, out);
      BfsSearches(g, q, v);
      OneMoreSearched(g, queue, visited, Bfs(g, q, v));
    }
  }

  lemma QueueIsVisited(queue: seq<string>, visited: set<string>, out: seq<Edge>)
    requires queue != [] && Distinct(queue) && (forall id :: id in queue ==> id in visited)
    ensures var (v, q) := Enqueue(out, visited, queue[1..]); forall id :: id in q ==> id in v
  {
    EnqueueAppends(out, visited, queue[1..]);
    var (v, q) := Enqueue(out, visited, queue[1..]);
    forall i | 0 <= i < |q| ensures q[i] in v {
      if i < |queue| - 1 { assert q[i] == queue[1..][i]; }
    }
  }

  lemma OneMoreSearched(g: Graph, queue: seq<string>, visited: set<string>, rest: seq<string>)
    requires queue != [] && Distinct(queue) && (forall id :: id in queue ==> id in visited)
    requires var (v, q) := Enqueue(OutEdges(g.edges, queue[0]), visited, queue[1..]); Searched(g, q, v, rest)
    ensures Searched(g, queue, visited, [queue[0]] + rest)
  {
    var id, out := queue[0], OutEdges(g.edges, queue[0]);
    var (v, q) := Enqueue(out, visited, queue[1..]);
    EnqueueAppends(out, visited, queue[1..]);
    var order := [id] + rest;
    assert queue == [id] + queue[1..] && queue[1..] <= rest;
    forall i | 0 <= i < |rest| ensures rest[i] != id && (i >= |queue| - 1 ==> rest[i] !in visited) {
      if i < |queue| - 1 { assert rest[i] == queue[1..][i] == queue[i + 1]; }
      else if i < |q| { assert rest[i] == q[i]; }
    }
    forall e | e in g.edges && e.source in order ensures e.target in order || e.target in visited {
      if e.source == id {
        assert e in out;
        assert e.target in Targets(out);
      }
      assert e.target in v || e.target in rest;
      if e.target in v && e.target !in visited {
        assert e.target in q;
        assert forall k :: 0 <= k < |q| ==> rest[k] == q[k];
      }
    }
  }

  /** Everything the search lists can be reached along edges. */
  lemma {:induction false} BfsReaches(g: Graph, start: string, queue: seq<string>, visited: set<string>)
    requires Distinct(queue) && (forall id :: id in queue ==> id in visited)
    requires forall id :: id in queue ==> Reachable(g, start, id)
    ensures forall id :: id in Bfs(g, queue, visited) ==> Reachable(g, start, id)
    decreases Unseen(g, visited), |queue|
  {
    if queue != [] {
      var out := OutEdges(g.edges, queue[0]);
      var (v, q) := Enqueue(out, visited, queue[1..]);
      Shrinks(g, visited, v);
      EnqueueAppends(out, visited, queue[1..]);
      QueueIsVisited(queue, visited, out);
      QueueIsReachable(g, start, queue, visited);
      BfsReaches(g, start, q, v);
    }
  }

  lemma QueueIsReachable(g: Graph, start: string, queue: seq<string>, visited: set<string>)
    requires queue != [] && Distinct(queue) && (forall id :: id in queue ==> id in visited)
    requires forall id :: id in queue ==> Reachable(g, start, id)
    ensures forall id :: id in Enqueue(OutEdges(g.edges, queue[0]), visited, queue[1..]).1 ==> Reachable(g, start, id)
  {
    var out := OutEdges(g.edges, queue[0]);
    var q := Enqueue(out, visited, queue[1..]).1;
    EnqueueAppends(out, visited, queue[1..]);
    forall i | 0 <= i < |q| ensures Reachable(g, start, q[i]) {
      if i < |queue| - 1 {
        assert q[i] == queue[1..][i] == queue[i + 1];
      } else {
        assert q[i] in Targets(out);
        var e :| e in out && e.target == q[i];
        TargetReachable(g, start, e);
      }
    }
  }

  lemma TargetReachable(g: Graph, start: string, e: Edge)
    requires e in g.edges && Reachable(g, start, e.source)
    ensures Reachable(g, start, e.target)
  {
    var n: nat :| Reaches(g, start, e.source, n);
    assert Reaches(g, start, e.target, n + 1);
  }

  /** The numbering lists the start node first and every reachable node exactly once. */
  lemma OrderIsReachableSet(g: Graph)
    requires Order(g).Some?
    ensures var order, start := Order(g).value, StartId(g).value;
            && order != [] && order[0] == start && Distinct(order)
            && (forall e :: e in g.edges && e.source in order ==> e.target in order)
            && (forall id :: id in order <==> Reachable(g, start, id))
  {
    var start := StartId(g).value;
    var order := Order(g).value;
    BfsSearches(g, [start], {start});
    assert order[0] == [start][0];
    assert Reaches(g, start, start, 0);
    BfsReaches(g, start, [start], {start});
    forall id | Reachable(g, start, id) ensures id in order {
      var n: nat :| Reaches(g, start, id, n);
      ReachedIsListed(g, start, order, id, n);
    }
  }

  lemma {:induction false} ReachedIsListed(g: Graph, start: string, order: seq<string>, id: string, n: nat)
    requires start in order && (forall e :: e in g.edges && e.source in order ==> e.target in order)
    requires Reaches(g, start, id, n)
    ensures id in order
    decreases n
  {
    if n > 0 {
      var e :| e in g.edges && e.target == id && Reaches(g, start, e.source, n - 1);
      ReachedIsListed(g, start, order, e.source, n - 1);
    }
  }

  // ---- breadth first ----

  /** A path of at most d edges. */
  ghost predicate Within(g: Graph, start: string, id: string, d: int) {
    exists n: nat :: n <= d && Reaches(g, start, id, n)
  }

  /** The first k queued nodes are d edges away, the others d + 1; all nodes within d edges are visited, and so are the
      targets of visited nodes that have left the queue. */
  ghost predicate Layered(g: Graph, start: string, queue: seq<string>, visited: set<string>, d: nat, k: nat) {
    && k <= |queue|
    && (forall i :: 0 <= i < |queue| ==>
          && Within(g, start, queue[i], if i < k then d else d + 1)
          && !Within(g, start, queue[i], if i < k then d - 1 else d))
    && (forall id :: Within(g, start, id, d) ==> id in visited)
    && (forall e :: e in g.edges && e.source in visited && e.source !in queue ==> e.target in visited)
  }

  lemma OneEdgeMore(g: Graph, start: string, e: Edge, d: nat)
    requires e in g.edges && Within(g, start, e.source, d)
    ensures Within(g, start, e.target, d + 1)
  {
    var n: nat :| n <= d && Reaches(g, start, e.source, n);
    assert Reaches(g, start, e.target, n + 1);
  }

  lemma OneEdgeLess(g: Graph, start: string, id: string, d: nat) returns (e: Edge)
    requires Within(g, start, id, d + 1) && !Within(g, start, id, d)
    ensures e in g.edges && e.target == id && Within(g, start, e.source, d)
  {
    var n: nat :| n <= d + 1 && Reaches(g, start, id, n);
    e :| e in g.edges && e.target == id && Reaches(g, start, e.source, n - 1);
  }

  /** When a layer is used up, the queue is the next one. */
  lemma NextLayer(g: Graph, start: string, queue: seq<string>, visited: set<string>, d: nat)
    requires Layered(g, start, queue, visited, d, 0)
    ensures Layered(g, start, queue, visited, d + 1, |queue|)
  {
    forall id | Within(g, start, id, d + 1) ensures id in visited {
      if !Within(g, start, id, d) {
        var e := OneEdgeLess(g, start, id, d);
        assert e.source !in queue;
      }
    }
  }

  /** A node that leaves the queue adds its unvisited targets, one edge further away, at the end. */
  lemma SameLayer(g: Graph, start: string, queue: seq<string>, visited: set<string>, d: nat, k: nat)
    requires 0 < k && Layered(g, start, queue, visited, d, k)
    requires Distinct(queue) && forall id :: id in queue ==> id in visited
    ensures var (v, q) := Enqueue(OutEdges(g.edges, queue[0]), visited, queue[1..]);
            Layered(g, start, q, v, d, k - 1)
  {
    hide Within;
    var out := OutEdges(g.edges, queue[0]);
    var (v, q) := Enqueue(out, visited, queue[1..]);
    EnqueueAppends(out, visited, queue[1..]);
    forall i | 0 <= i < |q|
      ensures Within(g, start, q[i], if i < k - 1 then d else d + 1)
      ensures !Within(g, start, q[i], if i < k - 1 then d - 1 else d)
    {
      if i < |queue| - 1 {
        assert q[i] == queue[1..][i] == queue[i + 1];
      } else {
        var e :| e in out && e.target == q[i];
        OneEdgeMore(g, start, e, d);
      }
    }
    forall e | e in g.edges && e.source in v && e.source !in q ensures e.target in v {
      if e.source == queue[0] {
        assert e in out;
      } else {
        assert e.source !in queue by {
          if i: nat :| i < |queue| && queue[i] == e.source { assert queue[1..][i - 1] == q[i - 1]; }
        }
      }
    }
  }

  /** Nothing a search lists is closer than the layer it is in. */
  lemma NothingCloser(g: Graph, start: string, queue: seq<string>, visited: set<string>, d: nat, k: nat, id: string)
    requires Layered(g, start, queue, visited, d, k) && id in Bfs(g, queue, visited)
    requires Distinct(queue) && forall id :: id in queue ==> id in visited
    ensures !Within(g, start, id, d - 1)
  {
    BfsSearches(g, queue, visited);
    var rest := Bfs(g, queue, visited);
    var i :| 0 <= i < |rest| && rest[i] == id;
    if i < |queue| { assert rest[i] == queue[i]; }
    if n: nat :| n <= d - 1 && Reaches(g, start, id, n) { assert Within(g, start, id, d); }
  }

  /** No node is listed before one that is closer to the start. */
  ghost predicate ByDistance(g: Graph, start: string, order: seq<string>) {
    forall i, j, m: nat ::
      0 <= i <= j < |order| && Within(g, start, order[j], m) ==> Within(g, start, order[i], m)
  }

  lemma {:induction false} BfsByDistance(g: Graph, start: string, queue: seq<string>, visited: set<string>, d: nat,
      k: nat)
    requires Layered(g, start, queue, visited, d, k)
    requires Distinct(queue) && forall id :: id in queue ==> id in visited
    ensures ByDistance(g, start, Bfs(g, queue, visited))
    decreases Unseen(g, visited), |queue|, if k == 0 then 1 else 0
  {
    hide Layered, Distinct, OutEdges, Enqueue, ByDistance, Unseen;
    if queue == [] {
      NothingListed(g, start);
    } else {
      if k == 0 {
        NextLayer(g, start, queue, visited, d);
        BfsByDistance(g, start, queue, visited, d + 1, |queue|);
      } else {
        var (v, q) := Enqueue(OutEdges(g.edges, queue[0]), visited, queue[1..]);
        Dequeued(g, queue, visited);
        SameLayer(g, start, queue, visited, d, k);
        BfsByDistance(g, start, q, v, d, k - 1);
        FirstIsClosest(g, start, queue, visited, d, k);
        ClosestFirst(g, start, queue[0], Bfs(g, q, v));
      }
    }
  }

  lemma NothingListed(g: Graph, start: string)
    ensures ByDistance(g, start, [])
  {
  }

  lemma Dequeued(g: Graph, queue: seq<string>, visited: set<string>)
    requires queue != [] && Distinct(queue) && forall id :: id in queue ==> id in visited
    ensures var (v, q) := Enqueue(OutEdges(g.edges, queue[0]), visited, queue[1..]);
            && Distinct(q) && (forall id :: id in q ==> id in v)
            && (Unseen(g, v) < Unseen(g, visited) || (v == visited && q == queue[1..]))
  {
    var out := OutEdges(g.edges, queue[0]);
    var (v, q) := Enqueue(out, visited, queue[1..]);
    Shrinks(g, visited, v);
    EnqueueAppends(out, visited, queue[1..]);
    QueueIsVisited(queue, visited, out);
  }

  lemma ClosestFirst(g: Graph, start: string, first: string, rest: seq<string>)
    requires ByDistance(g, start, rest)
    requires forall id, m: nat :: id in [first] + rest && Within(g, start, id, m) ==> Within(g, start, first, m)
    ensures ByDistance(g, start, [first] + rest)
  {
    hide Within;
  }

  lemma FirstIsClosest(g: Graph, start: string, queue: seq<string>, visited: set<string>, d: nat, k: nat)
    requires 0 < k && Layered(g, start, queue, visited, d, k)
    requires Distinct(queue) && forall id :: id in queue ==> id in visited
    ensures forall id, m: nat ::
              id in Bfs(g, queue, visited) && Within(g, start, id, m) ==> Within(g, start, queue[0], m)
  {
    forall id, m: nat | id in Bfs(g, queue, visited) && Within(g, start, id, m)
      ensures Within(g, start, queue[0], m)
    {
      NothingCloser(g, start, queue, visited, d, k, id);
      assert m >= d;
    }
  }

  /** The numbering is by distance from the start node: a node with a lower number is no further away. */
  lemma OrderIsByDistance(g: Graph)
    requires Order(g).Some?
    ensures ByDistance(g, StartId(g).value, Order(g).value)
  {
    var start := StartId(g).value;
    assert Reaches(g, start, start, 0);
    BfsByDistance(g, start, [start], {start}, 0, 1);
  }
}
