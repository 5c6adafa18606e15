/** The client's small directed graph (client/src/classes/Graph.ts): node and
    edge lists, neighbour queries, and Kahn-style acyclicity check. */
module Graphs {
  import opened NodeTypes

  datatype Edge = Edge(from: ID, to: ID)

  /** No edge of es ends at v. */
  predicate NoIncoming(es: seq<Edge>, v: ID) {
    forall e :: e in es ==> e.to != v
  }

  /** `getIncomingNodes(node, edges)`: the sources of the edges ending at node,
      in edge order. */
  function IncomingNodes(node: ID, es: seq<Edge>): (r: seq<ID>)
    ensures |r| <= |es|
    ensures forall x :: x in r <==> Edge(x, node) in es
    ensures |r| == 0 <==> NoIncoming(es, node)
  {
    if es == [] then []
    else
      assert forall e :: e in es <==> e == es[0] || e in es[1..];
      (if es[0].to == node then [es[0].from] else []) + IncomingNodes(node, es[1..])
  }

  /** `getOutgoingNodes(node, edges)`: the targets of the edges starting at
      node, in edge order. */
  function OutgoingNodes(node: ID, es: seq<Edge>): (r: seq<ID>)
    ensures |r| <= |es|
    ensures forall x :: x in r <==> Edge(node, x) in es
  {
    if es == [] then []
    else
      assert forall e :: e in es <==> e == es[0] || e in es[1..];
      (if es[0].from == node then [es[0].to] else []) + OutgoingNodes(node, es[1..])
  }

  /** `edges.filter(e => !(e.from == n && e.to == m))`. */
  function RemoveEdge(es: seq<Edge>, n: ID, m: ID): (r: seq<Edge>)
    ensures forall e :: e in r <==> e in es && e != Edge(n, m)
    ensures |r| <= |es|
    ensures Edge(n, m) in es ==> |r| < |es|
  {
    if es == [] then []
    else
      assert forall e :: e in es <==> e == es[0] || e in es[1..];
      (if es[0] == Edge(n, m) then [] else [es[0]]) + RemoveEdge(es[1..], n, m)
  }

  /** `nodes.filter(e => getIncomingNodes(e).length == 0)`. */
  function NodesWithoutIncoming(ns: seq<ID>, es: seq<Edge>): (r: seq<ID>)
    ensures forall v :: v in r <==> v in ns && NoIncoming(es, v)
  {
    if ns == [] then []
    else
      assert forall v :: v in ns <==> v == ns[0] || v in ns[1..];
      (if |IncomingNodes(ns[0], es)| == 0 then [ns[0]] else []) + NodesWithoutIncoming(ns[1..], es)
  }

  /** Position i of the closed walk c has an edge to the next position,
      the last position to the first. */
  predicate StepIn(es: seq<Edge>, c: seq<ID>, i: int)
    requires 0 <= i < |c|
  {
    Edge(c[i], if i + 1 < |c| then c[i + 1] else c[0]) in es
  }

  /** A closed walk along the edges. */
  predicate IsCycle(es: seq<Edge>, c: seq<ID>) {
    |c| > 0 && forall i :: 0 <= i < |c| ==> StepIn(es, c, i)
  }

  ghost predicate HasCycle(es: seq<Edge>) {
    exists c :: IsCycle(es, c)
  }

  /** Every edge whose source has no incoming edge starts at a registered
      node. Kahn's removal can only start from registered nodes, so an edge
      failing this is never removed. */
  predicate Rooted(ns: seq<ID>, es: seq<Edge>) {
    forall e :: e in es && NoIncoming(es, e.from) ==> e.from in ns
  }

  /** Every source of an edge ending at v occurs in done. */
  predicate PredsIn(es: seq<Edge>, v: ID, done: seq<ID>) {
    forall e :: e in es && e.to == v ==> e.from in done
  }

  /** Why v may be taken off the worklist once the vertices in done have been:
      it is a registered node with no incoming edge, or it has incoming edges
      and all of them come from done. */
  predicate Ready(ns: seq<ID>, es: seq<Edge>, done: seq<ID>, v: ID) {
    (v in ns && NoIncoming(es, v)) || (!NoIncoming(es, v) && PredsIn(es, v, done))
  }

  predicate Justified(ns: seq<ID>, es: seq<Edge>, order: seq<ID>, k: int)
    requires 0 <= k < |order|
  {
    Ready(ns, es, order[..k], order[k])
  }

  /** Why v is not on the worklist: some edge into it comes from an unprocessed
      vertex, or it has no incoming edge and is not a registered node. */
  ghost predicate Blocked(ns: seq<ID>, es: seq<Edge>, done: seq<ID>, v: ID) {
    (exists e :: e in es && e.to == v && e.from !in done) || (NoIncoming(es, v) && v !in ns)
  }

  /** A vertex taken off the worklist lies on no cycle. */
  lemma {:induction false} NotOnCycle(ns: seq<ID>, es: seq<Edge>, order: seq<ID>, j: int)
    requires 0 <= j < |order|
    requires forall k :: 0 <= k < |order| ==> Justified(ns, es, order, k)
    ensures forall c :: IsCycle(es, c) ==> order[j] !in c
    decreases j
  {
    forall c | IsCycle(es, c)
      ensures order[j] !in c
    {
      if order[j] in c {
        var p :| 0 <= p < |c| && c[p] == order[j];
        var q := if p > 0 then p - 1 else |c| - 1;
        assert StepIn(es, c, q);
        var e := Edge(c[q], c[p]);
        assert e in es;
        assert Justified(ns, es, order, j);
        assert e.from in order[..j];
        var k :| 0 <= k < j && order[k] == c[q];
        NotOnCycle(ns, es, order, k);
        assert false;
      }
    }
  }

  /** When every edge source was taken off the worklist, the graph has no
      cycle and every root edge starts at a registered node. */
  lemma AllProcessedMeansAcyclic(ns: seq<ID>, es: seq<Edge>, order: seq<ID>)
    requires forall k :: 0 <= k < |order| ==> Justified(ns, es, order, k)
    requires forall e :: e in es ==> e.from in order
    ensures !HasCycle(es) && Rooted(ns, es)
  {
    forall e | e in es && NoIncoming(es, e.from)
      ensures e.from in ns
    {
      var k :| 0 <= k < |order| && order[k] == e.from;
      assert Justified(ns, es, order, k);
    }
    if HasCycle(es) {
      var c :| IsCycle(es, c);
      assert StepIn(es, c, 0);
      var k :| 0 <= k < |order| && order[k] == c[0];
      NotOnCycle(ns, es, order, k);
      assert false;
    }
  }

  function Reverse(s: seq<ID>): (r: seq<ID>)
    ensures |r| == |s| && forall i :: 0 <= i < |s| ==> r[i] == s[|s| - 1 - i]
  {
    if s == [] then [] else Reverse(s[1..]) + [s[0]]
  }

  lemma {:induction false} DistinctWithinCard(s: seq<ID>, xs: set<ID>)
    requires forall i :: 0 <= i < |s| ==> s[i] in xs
    requires forall i, k :: 0 <= i < k < |s| ==> s[i] != s[k]
    ensures |s| <= |xs|
  {
    if s != [] {
      var last := s[|s| - 1];
      DistinctWithinCard(s[..|s| - 1], xs - {last});
    }
  }

  /** Vertex i of the backward walk w is entered from vertex i + 1. */
  predicate BackStep(es: seq<Edge>, w: seq<ID>, i: int)
    requires 0 <= i < |w| - 1
  {
    Edge(w[i + 1], w[i]) in es
  }

  /** A backward walk w that is closed by an edge from its first vertex into
      its last one is, reversed, a cycle. */
  lemma ClosedWalkIsCycle(es: seq<Edge>, w: seq<ID>)
    requires |w| > 0
    requires forall i :: 0 <= i < |w| - 1 ==> BackStep(es, w, i)
    requires Edge(w[0], w[|w| - 1]) in es
    ensures IsCycle(es, Reverse(w))
  {
    var c := Reverse(w);
    forall i | 0 <= i < |c|
      ensures StepIn(es, c, i)
    {
      if i + 1 < |c| {
        assert BackStep(es, w, |w| - 2 - i);
        assert c[i] == w[|w| - 2 - i + 1] && c[i + 1] == w[|w| - 2 - i];
      } else {
        assert c[i] == w[0] && c[0] == w[|w| - 1];
      }
    }
  }

  /** Some edge into x comes from a vertex of xs. */
  ghost predicate HasPredIn(es: seq<Edge>, xs: set<ID>, x: ID) {
    exists e :: e in es && e.to == x && e.from in xs
  }

  /** In a finite vertex set where every vertex has a predecessor inside the
      set, walking backwards from any vertex must revisit one: a cycle. The
      path holds the walk so far, newest vertex last. */
  lemma {:induction false} CycleFromPredecessors(es: seq<Edge>, xs: set<ID>, path: seq<ID>)
    requires forall x {:trigger HasPredIn(es, xs, x)} :: x in xs ==> HasPredIn(es, xs, x)
    requires |path| > 0
    requires forall i :: 0 <= i < |path| ==> path[i] in xs
    requires forall i, k :: 0 <= i < k < |path| ==> path[i] != path[k]
    requires forall i :: 0 <= i < |path| - 1 ==> BackStep(es, path, i)
    ensures HasCycle(es)
    decreases |xs| - |path|
  {
    var x := path[|path| - 1];
    assert HasPredIn(es, xs, x);
    var e :| e in es && e.to == x && e.from in xs;
    var y := e.from;
    if y in path {
      var k :| 0 <= k < |path| && path[k] == y;
      var w := path[k..];
      forall i | 0 <= i < |w| - 1
        ensures BackStep(es, w, i)
      {
        assert BackStep(es, path, k + i);
      }
      ClosedWalkIsCycle(es, w);
    } else {
      var longer := path + [y];
      forall i | 0 <= i < |longer| - 1
        ensures BackStep(es, longer, i)
      {
        if i < |path| - 1 {
          assert BackStep(es, path, i);
        }
      }
      DistinctWithinCard(longer, xs);
      CycleFromPredecessors(es, xs, longer);
    }
  }

  /** When some edge source was never taken off the worklist and every such
      vertex is blocked, the graph has a cycle or an unregistered root. */
  lemma StuckMeansCycleOrUnrooted(ns: seq<ID>, es: seq<Edge>, order: seq<ID>)
    requires exists e :: e in es && e.from !in order
    requires forall v {:trigger Blocked(ns, es, order, v)} :: v !in order ==> Blocked(ns, es, order, v)
    ensures HasCycle(es) || !Rooted(ns, es)
  {
    if Rooted(ns, es) {
      var xs := set e | e in es && e.from !in order :: e.from;
      forall x | x in xs
        ensures HasPredIn(es, xs, x)
      {
        var e0 :| e0 in es && e0.from !in order && e0.from == x;
        assert Blocked(ns, es, order, x);
        assert !(NoIncoming(es, x) && x !in ns);
        var e :| e in es && e.to == x && e.from !in order;
        assert e.from in xs;
      }
      var e0 :| e0 in es && e0.from !in order;
      assert e0.from in xs;
      CycleFromPredecessors(es, xs, [e0.from]);
    }
  }

  class Graph {
    var nodes: seq<ID>
    var edges: seq<Edge>

    constructor()
      ensures nodes == [] && edges == []
    {
      nodes := [];
      edges := [];
    }

    /** `addNode`: appends the node. */
    method AddNode(node: ID)
      modifies this
      ensures nodes == old(nodes) + [node] && edges == old(edges)
    {
      nodes := nodes + [node];
    }

    /** `addEdge`: appends the edge. */
    method AddEdge(from: ID, to: ID)
      modifies this
      ensures edges == old(edges) + [Edge(from, to)] && nodes == old(nodes)
    {
      edges := edges + [Edge(from, to)];
    }

    /** `isAcyclic`: Kahn's algorithm on a copy of the edges. It succeeds exactly
        when the edges have no cycle and every edge source without incoming
        edges was added as a node. Nothing stored is changed. */
    method IsAcyclic() returns (b: bool)
      ensures b <==> !HasCycle(edges) && Rooted(nodes, edges)
    {
      var edgesCopy := edges;
      var order: seq<ID> := [];
      var pending := NodesWithoutIncoming(nodes, edges);
      while |pending| > 0
        invariant forall k :: 0 <= k < |order| ==> Justified(nodes, edges, order, k)
        invariant forall v :: v in pending ==> Ready(nodes, edges, order, v)
        invariant forall e :: e in edgesCopy <==> e in edges && e.from !in order
        invariant forall v {:trigger Blocked(nodes, edges, order, v)} ::
          v !in order && v !in pending ==> Blocked(nodes, edges, order, v)
        decreases |edgesCopy|, |pending|
      {
        ghost var pendingBefore := pending;
        ghost var before := order;
        ghost var copyBefore := edgesCopy;
        var n := pending[|pending| - 1];
        pending := pending[..|pending| - 1];
        assert pendingBefore == pending + [n];
        order := order + [n];
        JustifiedAfterPop(nodes, edges, before, n);
        forall v | v in pending
          ensures Ready(nodes, edges, order, v)
        {
          ReadyGrows(nodes, edges, before, order, v);
        }
        forall v {:trigger Blocked(nodes, edges, order, v)} | v !in order && v !in pending
          ensures Blocked(nodes, edges, order, v) || v in OutgoingNodes(n, edgesCopy)
        {
          assert Blocked(nodes, edges, before, v);
        }
        edgesCopy, pending := ReleaseSuccessors(nodes, edges, before, n, order, edgesCopy, pending);
      }
      b := |edgesCopy| == 0;
      if b {
        AllProcessedMeansAcyclic(nodes, edges, order);
      } else {
        assert edgesCopy[0] in edges && edgesCopy[0].from !in order;
        StuckMeansCycleOrUnrooted(nodes, edges, order);
      }
    }
  }

  /** The inner loop of `isAcyclic`: remove every remaining edge out of n and
      put on the worklist each target left without incoming edges. */
  method ReleaseSuccessors(nodes: seq<ID>, edges: seq<Edge>, ghost before: seq<ID>, n: ID, order: seq<ID>,
                           copyIn: seq<Edge>, pendingIn: seq<ID>)
    returns (edgesCopy: seq<Edge>, pending: seq<ID>)
    requires order == before + [n]
    requires forall v :: v in pendingIn ==> Ready(nodes, edges, order, v)
    requires forall e :: e in copyIn <==> e in edges && e.from !in before
    requires forall v {:trigger Blocked(nodes, edges, order, v)} ::
      v !in order && v !in pendingIn ==> Blocked(nodes, edges, order, v) || v in OutgoingNodes(n, copyIn)
    ensures forall v :: v in pending ==> Ready(nodes, edges, order, v)
    ensures forall e :: e in edgesCopy <==> e in edges && e.from !in order
    ensures forall v {:trigger Blocked(nodes, edges, order, v)} ::
      v !in order && v !in pending ==> Blocked(nodes, edges, order, v)
    ensures |edgesCopy| < |copyIn| || (|edgesCopy| == |copyIn| && pending == pendingIn)
  {
    edgesCopy, pending := copyIn, pendingIn;
    var outgoing := OutgoingNodes(n, edgesCopy);
    for j := 0 to |outgoing|
      invariant forall v :: v in pending ==> Ready(nodes, edges, order, v)
      invariant forall e :: e in edgesCopy <==> e in edges && e.from !in before && !(e.from == n && e.to in outgoing[..j])
      invariant forall v {:trigger Blocked(nodes, edges, order, v)} ::
        v !in order && v !in pending ==> Blocked(nodes, edges, order, v) || v in outgoing[j..]
      invariant j > 0 ==> |edgesCopy| < |copyIn|
      invariant j == 0 ==> edgesCopy == copyIn && pending == pendingIn
    {
      var m := outgoing[j];
      assert outgoing[..j + 1] == outgoing[..j] + [m];
      assert outgoing[j..] == [m] + outgoing[j + 1..];
      assert Edge(n, m) in copyIn;
      ghost var copyHere := edgesCopy;
      edgesCopy := RemoveEdge(edgesCopy, n, m);
      assert |edgesCopy| <= |copyHere|;
      var incoming := IncomingNodes(m, edgesCopy);
      if |incoming| == 0 {
        assert Ready(nodes, edges, order, m);
        pending := pending + [m];
      } else {
        assert Edge(incoming[0], m) in edgesCopy;
        assert Blocked(nodes, edges, order, m);
      }
    }
    assert outgoing[..|outgoing|] == outgoing;
  }

  /** Readiness only needs the processed vertices to include some set, so it
      survives processing more of them. */
  lemma ReadyGrows(ns: seq<ID>, es: seq<Edge>, done: seq<ID>, more: seq<ID>, v: ID)
    requires Ready(ns, es, done, v)
    requires forall x :: x in done ==> x in more
    ensures Ready(ns, es, more, v)
  {
  }

  /** Appending a vertex that was ready keeps every position of the processing
      order justified. */
  lemma JustifiedAfterPop(ns: seq<ID>, es: seq<Edge>, order: seq<ID>, n: ID)
    requires forall k :: 0 <= k < |order| ==> Justified(ns, es, order, k)
    requires Ready(ns, es, order, n)
    ensures forall k :: 0 <= k < |order + [n]| ==> Justified(ns, es, order + [n], k)
  {
    var longer := order + [n];
    forall k | 0 <= k < |longer|
      ensures Justified(ns, es, longer, k)
    {
      if k < |order| {
        assert longer[..k] == order[..k];
        assert Justified(ns, es, order, k);
      } else {
        assert longer[..k] == order;
      }
    }
  }

  /** With no edges there is nothing to remove: acyclic. */
  lemma NoEdgesAcyclic(ns: seq<ID>)
    ensures !HasCycle([]) && Rooted(ns, [])
  {
    AllProcessedMeansAcyclic(ns, [], []);
  }

  /** A self-loop is a cycle. */
  lemma SelfLoopIsCycle(es: seq<Edge>, v: ID)
    requires Edge(v, v) in es
    ensures HasCycle(es)
  {
    assert StepIn(es, [v], 0);
    assert IsCycle(es, [v]);
  }

  /** An edge from a vertex nobody added and nothing points to is never
      removed, so the check fails. */
  lemma UnregisteredRootNotRooted(ns: seq<ID>, es: seq<Edge>, e: Edge)
    requires e in es && NoIncoming(es, e.from) && e.from !in ns
    ensures !Rooted(ns, es)
  {
  }
}
